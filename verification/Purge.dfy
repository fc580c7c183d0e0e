/** The durable purge of one role: arm an intent, then delete what the role had issued, in bounded
    passes. `Disk` is what survives a crash; `Effect` is one cloud call or storage write. */
module Purge {
  import opened Common
  import opened Order

  const DEFAULT_MAX_DELETES := 50

  /** A tracking record: `created` is 0 when the record has no readable timestamp. */
  datatype Stored = Unreadable | Record(role: string, minter: string, created: Time)

  datatype Intent = Intent(
    role: string, armedAt: Time, cutoff: Time, tracked: nat, deleted: nat, failed: nat, complete: bool)

  datatype Result = Result(tracked: nat, deleted: nat, failed: nat, remaining: int, throttled: bool)

  datatype Disk = Disk(records: map<string, Stored>, intents: map<string, Intent>, live: set<string>)

  datatype Effect = UpstreamDelete(id: string) | RecordDelete(id: string) | SaveIntent(intent: Intent)

  function Apply(d: Disk, e: Effect): Disk {
    match e
    case UpstreamDelete(id) => d.(live := d.live - {id})
    case RecordDelete(id) => d.(records := d.records - {id})
    case SaveIntent(i) => d.(intents := d.intents[i.role := i])
  }

  function Replay(d: Disk, effects: seq<Effect>): Disk
    decreases effects
  {
    if effects == [] then d else Replay(Apply(d, effects[0]), effects[1..])
  }

  lemma Regroup(a: seq<Effect>, b: seq<Effect>, c: seq<Effect>)
    ensures (a + b) + c == a + (b + c)
  {}

  lemma {:induction false} ReplayConcat(d: Disk, a: seq<Effect>, b: seq<Effect>)
    ensures Replay(d, a + b) == Replay(Replay(d, a), b)
    decreases a
  {
    if a == [] {
      assert a + b == b;
    } else {
      assert (a + b)[1..] == a[1..] + b;
      ReplayConcat(Apply(d, a[0]), a[1..], b);
    }
  }

  lemma ReplayEach(d: Disk, es: seq<Effect>, e: Effect)
    ensures Replay(d, es + [e]) == Apply(Replay(d, es), e)
  {
    ReplayConcat(d, es, [e]);
    assert [e][1..] == [];
  }

  /** How the cloud answers a delete of one credential; an allowed delete of an absent one is a
      404. */
  datatype Policy = Allow | Throttle | Refuse

  datatype Outcome = Done | Throttled | Failed

  /** A 404 is success, a 429 ends the pass, anything else is a failure. */
  function OutcomeOf(status: int, err: bool): Outcome {
    if !err || status == 404 then Done else if status == 429 then Throttled else Failed
  }

  /** Storage failures: of the scan, of deleting the record of some id, of saving the intent. */
  datatype Faults = Faults(scan: bool, keeps: set<string>, save: bool)

  const NO_FAULTS := Faults(false, {}, false)

  predicate InScope(stored: Stored, role: string, cutoff: Time) {
    stored.Record? && stored.role == role && (stored.created == 0 || stored.created <= cutoff)
  }

  function ScopeOf(records: map<string, Stored>, role: string, cutoff: Time): string -> bool {
    (id: string) => id in records && InScope(records[id], role, cutoff)
  }

  /** The records in scope, in the order passes work through them. */
  ghost function Scope(records: map<string, Stored>, role: string, cutoff: Time): seq<string> {
    Filter(ScopeOf(records, role, cutoff), SortedKeys(records.Keys))
  }

  function Budget(maxDeletes: int): nat {
    if maxDeletes <= 0 then DEFAULT_MAX_DELETES else maxDeletes
  }

  /** What a pass did: `stranded` is the credential deleted upstream whose record could not be. */
  datatype PassOut = PassOut(deleted: seq<string>, failed: seq<string>, throttled: bool, stranded: seq<string>)

  function PassOver(scan: seq<string>, budget: int, policy: string -> Policy, keeps: set<string>): PassOut
    decreases |scan|
  {
    if scan == [] || budget <= 0 then PassOut([], [], false, [])
    else
      var id := scan[0];
      match policy(id)
      case Throttle => PassOut([], [], true, [])
      case Refuse =>
        var rest := PassOver(scan[1..], budget - 1, policy, keeps);
        rest.(failed := [id] + rest.failed)
      case Allow =>
        if id in keeps then PassOut([], [], false, [id])
        else
          var rest := PassOver(scan[1..], budget - 1, policy, keeps);
          rest.(deleted := [id] + rest.deleted)
  }

  /** Each record goes only after its credential. */
  function DeleteEffects(ids: seq<string>): seq<Effect> {
    if ids == [] then [] else [UpstreamDelete(ids[0]), RecordDelete(ids[0])] + DeleteEffects(ids[1..])
  }

  function PassEffects(out: PassOut): seq<Effect> {
    DeleteEffects(out.deleted) + (if out.stranded == [] then [] else [UpstreamDelete(out.stranded[0])])
  }

  lemma {:induction false} DeleteEffectsSnoc(ids: seq<string>, id: string)
    ensures DeleteEffects(ids + [id]) == DeleteEffects(ids) + [UpstreamDelete(id), RecordDelete(id)]
  {
    if ids == [] {
      assert ids + [id] == [id];
      assert DeleteEffects([id][1..]) == [];
    } else {
      assert (ids + [id])[1..] == ids[1..] + [id];
      DeleteEffectsSnoc(ids[1..], id);
    }
  }

  // ----- what a pass is ------------------------------------------------------------------

  function Allowed(policy: string -> Policy): string -> bool {
    (id: string) => policy(id).Allow?
  }

  function Refused(policy: string -> Policy): string -> bool {
    (id: string) => policy(id).Refuse?
  }

  /** A pass is a prefix of the scan: every allowed id in it is deleted and every refused one
      fails, and it stops only at the end of the scan, at the budget, at a 429 or at a record it
      could not delete. */
  lemma {:induction false} PassShape(scan: seq<string>, budget: int, policy: string -> Policy, keeps: set<string>)
    ensures var out := PassOver(scan, budget, policy, keeps);
            var m := |out.deleted| + |out.failed|;
            && m <= |scan| && (m == 0 || m <= budget)
            && out.deleted == Filter(Allowed(policy), scan[..m])
            && out.failed == Filter(Refused(policy), scan[..m])
            && (forall k :: 0 <= k < m ==> !policy(scan[k]).Throttle? && (policy(scan[k]).Allow? ==> scan[k] !in keeps))
            && (out.throttled <==> m < |scan| && m < budget && policy(scan[m]).Throttle?)
            && (m < |scan| && m < budget && policy(scan[m]).Allow? && scan[m] in keeps ==> out.stranded == [scan[m]])
            && (!(m < |scan| && m < budget && policy(scan[m]).Allow? && scan[m] in keeps) ==> out.stranded == [])
            && (m == |scan| || m >= budget || out.throttled || out.stranded != [])
  {
    if scan != [] && budget > 0 && !policy(scan[0]).Throttle? && !(policy(scan[0]).Allow? && scan[0] in keeps) {
      PassShape(scan[1..], budget - 1, policy, keeps);
      var rest := PassOver(scan[1..], budget - 1, policy, keeps);
      var m := |rest.deleted| + |rest.failed| + 1;
      assert scan[..m][1..] == scan[1..][..m - 1];
      forall k | 0 <= k < m ensures !policy(scan[k]).Throttle? && (policy(scan[k]).Allow? ==> scan[k] !in keeps) {
        if k > 0 { assert scan[k] == scan[1..][k - 1]; }
      }
    }
  }

  /** A pass for a mount that sets no maximum tries at most fifty records, and one that does at most
      that many; it tries fewer only when there are no more, or when a 429 or a record it cannot
      delete ends it. */
  lemma PassFillsItsBudget(scan: seq<string>, maxDeletes: int, policy: string -> Policy, keeps: set<string>)
    ensures var out := PassOver(scan, Budget(maxDeletes), policy, keeps);
            var tried, most := |out.deleted| + |out.failed|, if maxDeletes > 0 then maxDeletes else 50;
            && tried <= most
            && (tried < most && tried < |scan| ==> out.throttled || out.stranded != [])
  {
    PassShape(scan, Budget(maxDeletes), policy, keeps);
  }

  // ----- crash safety --------------------------------------------------------------------

  /** Everything lost between `d` and `c` is in `scope`, and no live credential lost its record. */
  ghost predicate Purged(d: Disk, c: Disk, scope: set<string>) {
    && c.intents == d.intents && c.live <= d.live
    && c.records.Keys <= d.records.Keys && (forall id :: id in c.records ==> c.records[id] == d.records[id])
    && (forall id :: id in d.records && id !in c.records ==> id in scope && id !in c.live)
    && (forall id :: id in d.live && id !in c.live ==> id in scope)
  }

  lemma {:induction false} PrefixPurged(d: Disk, ids: seq<string>, n: nat, scope: set<string>)
    requires n <= |DeleteEffects(ids)| && forall id :: id in ids ==> id in scope
    ensures Purged(d, Replay(d, DeleteEffects(ids)[..n]), scope)
    decreases ids
  {
    if n >= 1 {
      var es := DeleteEffects(ids);
      var half := Apply(d, UpstreamDelete(ids[0]));
      ReplayEach(d, [], es[0]);
      if n == 1 {
        assert es[..1] == [] + [es[0]];
      } else {
        var first, rest := [es[0], es[1]], DeleteEffects(ids[1..])[..n - 2];
        assert es[..n] == first + rest;
        ReplayConcat(d, first, rest);
        assert first == [es[0]] + [es[1]];
        ReplayEach(d, [es[0]], es[1]);
        assert [] + [es[0]] == [es[0]];
        PrefixPurged(Apply(half, es[1]), ids[1..], n - 2, scope);
      }
    }
  }

  lemma {:induction false} OutWithin(scan: seq<string>, budget: int, policy: string -> Policy, keeps: set<string>)
    ensures var out := PassOver(scan, budget, policy, keeps);
            && (forall id :: id in out.deleted + out.stranded ==> id in scan)
            && |out.stranded| <= 1
  {
    if scan != [] && budget > 0 {
      var out, rest := PassOver(scan, budget, policy, keeps), PassOver(scan[1..], budget - 1, policy, keeps);
      OutWithin(scan[1..], budget - 1, policy, keeps);
      forall id | id in out.deleted + out.stranded ensures id in scan {
        assert id == scan[0] || id in rest.deleted + rest.stranded;
      }
    }
  }

  ghost function InScopeIds(d: Disk, role: string, cutoff: Time): set<string> {
    set id | id in d.records && InScope(d.records[id], role, cutoff)
  }

  lemma ScopeMembers(d: Disk, role: string, cutoff: Time)
    ensures forall id :: id in Scope(d.records, role, cutoff) <==> id in InScopeIds(d, role, cutoff)
    ensures Ascending(Scope(d.records, role, cutoff))
  {
    FilterMembers(ScopeOf(d.records, role, cutoff), SortedKeys(d.records.Keys));
    FilterAscending(ScopeOf(d.records, role, cutoff), SortedKeys(d.records.Keys));
  }

  /** Stopped after any single cloud or storage step, a pass has removed only records of the role
      not created after the cutoff, each with its credential already gone upstream. */
  lemma CrashSafe(d: Disk, role: string, cutoff: Time, budget: int, policy: string -> Policy,
                  keeps: set<string>, n: nat)
    requires n <= |PassEffects(PassOver(Scope(d.records, role, cutoff), budget, policy, keeps))|
    ensures Purged(d, Replay(d, PassEffects(PassOver(Scope(d.records, role, cutoff), budget, policy, keeps))[..n]),
                   InScopeIds(d, role, cutoff))
  {
    var scan := Scope(d.records, role, cutoff);
    var out := PassOver(scan, budget, policy, keeps);
    ScopeMembers(d, role, cutoff);
    OutWithin(scan, budget, policy, keeps);
    OutPrefixPurged(d, out, n, InScopeIds(d, role, cutoff));
  }

  lemma OutPrefixPurged(d: Disk, out: PassOut, n: nat, scope: set<string>)
    requires n <= |PassEffects(out)| && |out.stranded| <= 1
    requires forall id :: id in out.deleted + out.stranded ==> id in scope
    ensures Purged(d, Replay(d, PassEffects(out)[..n]), scope)
  {
    var es := DeleteEffects(out.deleted);
    if n <= |es| {
      assert PassEffects(out)[..n] == es[..n];
      PrefixPurged(d, out.deleted, n, scope);
    } else {
      PrefixPurged(d, out.deleted, |es|, scope);
      assert es[..|es|] == es;
      assert out.stranded[0] in out.deleted + out.stranded;
      assert PassEffects(out)[..n] == es + [UpstreamDelete(out.stranded[0])];
      ReplayEach(d, es, UpstreamDelete(out.stranded[0]));
    }
  }

  // ----- the mount -----------------------------------------------------------------------

  /** What `Arm` leaves. */
  ghost function ArmedIntent(d: Disk, role: string, now: Time): Intent {
    var n := |Scope(d.records, role, now)|;
    Intent(role, now, now, n, 0, 0, n == 0)
  }

  ghost function PassFor(d: Disk, i: Intent, maxDeletes: int, policy: string -> Policy, keeps: set<string>): PassOut {
    PassOver(Scope(d.records, i.role, i.cutoff), Budget(maxDeletes), policy, keeps)
  }

  ghost function AdvancedIntent(d: Disk, i: Intent, out: PassOut): Intent {
    i.(deleted := i.deleted + |out.deleted|, failed := |out.failed|,
       complete := |Scope(d.records, i.role, i.cutoff)| == |out.deleted|)
  }

  /** The effects of one `Advance`. A pass that ends in a storage error saves nothing. */
  ghost function AdvanceEffects(d: Disk, i: Intent, maxDeletes: int, policy: string -> Policy,
                               faults: Faults): seq<Effect> {
    if i.complete || faults.scan then []
    else
      var out := PassFor(d, i, maxDeletes, policy, faults.keeps);
      PassEffects(out) +
      (if out.stranded != [] || faults.save then [] else [SaveIntent(AdvancedIntent(d, i, out))])
  }

  lemma AdvanceEnds(d: Disk, i: Intent, maxDeletes: int, policy: string -> Policy, faults: Faults)
    requires !i.complete && !faults.scan
    ensures var out := PassFor(d, i, maxDeletes, policy, faults.keeps);
            var es := AdvanceEffects(d, i, maxDeletes, policy, faults);
            if out.stranded != [] || faults.save then es == PassEffects(out)
            else
              var save := SaveIntent(AdvancedIntent(d, i, out));
              es == PassEffects(out) + [save] && Replay(d, es) == Apply(Replay(d, PassEffects(out)), save)
  {
    var out := PassFor(d, i, maxDeletes, policy, faults.keeps);
    ReplayEach(d, PassEffects(out), SaveIntent(AdvancedIntent(d, i, out)));
  }

  /** A prefix of an `Advance` is one of its pass, or all of it with the intent saved. */
  lemma AdvancePrefix(d: Disk, i: Intent, maxDeletes: int, policy: string -> Policy, faults: Faults, n: nat)
    returns (m: nat)
    requires !i.complete && !faults.scan && n <= |AdvanceEffects(d, i, maxDeletes, policy, faults)|
    ensures var es := AdvanceEffects(d, i, maxDeletes, policy, faults);
            var deletes := PassEffects(PassFor(d, i, maxDeletes, policy, faults.keeps));
            && m <= |deletes|
            && var c, mid := Replay(d, es[..n]), Replay(d, deletes[..m]);
               && c.records == mid.records && c.live == mid.live && (n < |es| || c.intents == mid.intents ==> c == mid)
  {
    AdvanceEnds(d, i, maxDeletes, policy, faults);
    hide Replay, PassEffects, AdvanceEffects, PassOver, Scope;
    var es := AdvanceEffects(d, i, maxDeletes, policy, faults);
    var deletes := PassEffects(PassFor(d, i, maxDeletes, policy, faults.keeps));
    if n <= |deletes| {
      m := n;
      assert es[..n] == deletes[..m];
    } else {
      m := |deletes|;
      assert es[..n] == es && deletes[..m] == deletes;
    }
  }

  /** And so for a whole `Advance`, whose last step is saving the intent: stopped before that, the
      stored intent is the one it started from. */
  lemma AdvanceCrashSafe(d: Disk, i: Intent, maxDeletes: int, policy: string -> Policy, faults: Faults, n: nat)
    requires n <= |AdvanceEffects(d, i, maxDeletes, policy, faults)|
    ensures var es := AdvanceEffects(d, i, maxDeletes, policy, faults);
            var c := Replay(d, es[..n]);
            && Purged(d, c.(intents := d.intents), InScopeIds(d, i.role, i.cutoff))
            && (n < |es| ==> c.intents == d.intents)
  {
    if i.complete || faults.scan {
      assert AdvanceEffects(d, i, maxDeletes, policy, faults)[..n] == [];
    } else {
      var m := AdvancePrefix(d, i, maxDeletes, policy, faults, n);
      hide Replay, PassEffects, AdvanceEffects, PassOver, Scope, InScopeIds;
      CrashSafe(d, i.role, i.cutoff, Budget(maxDeletes), policy, faults.keeps, m);
    }
  }

  /** A pass that has worked through the first `i` records of its scan. */
  ghost predicate Midway(all: PassOut, scan: seq<string>, i: nat, budget: int, policy: string -> Policy,
                         keeps: set<string>, done: seq<string>, refused: seq<string>)
  {
    && i <= |scan| && |done| + |refused| == i
    && var rest := PassOver(scan[i..], budget - i, policy, keeps);
       all == PassOut(done + rest.deleted, refused + rest.failed, rest.throttled, rest.stranded)
  }

  lemma MidwayNext(all: PassOut, scan: seq<string>, i: nat, budget: int, policy: string -> Policy,
                   keeps: set<string>, done: seq<string>, refused: seq<string>)
    requires i < |scan| && i < budget && Midway(all, scan, i, budget, policy, keeps, done, refused)
    ensures match policy(scan[i])
            case Throttle => all == PassOut(done, refused, true, []) && PassEffects(all) == DeleteEffects(done)
            case Refuse => Midway(all, scan, i + 1, budget, policy, keeps, done, refused + [scan[i]])
            case Allow =>
              if scan[i] in keeps then
                all == PassOut(done, refused, false, [scan[i]])
                && PassEffects(all) == DeleteEffects(done) + [UpstreamDelete(scan[i])]
              else Midway(all, scan, i + 1, budget, policy, keeps, done + [scan[i]], refused)
  {
    assert scan[i..][1..] == scan[i + 1..];
    var rest := PassOver(scan[i + 1..], budget - i - 1, policy, keeps);
    assert done + ([scan[i]] + rest.deleted) == (done + [scan[i]]) + rest.deleted;
    assert refused + ([scan[i]] + rest.failed) == (refused + [scan[i]]) + rest.failed;
  }

  lemma MidwayEnds(all: PassOut, scan: seq<string>, i: nat, budget: int, policy: string -> Policy,
                   keeps: set<string>, done: seq<string>, refused: seq<string>)
    requires Midway(all, scan, i, budget, policy, keeps, done, refused) && (i == |scan| || i >= budget)
    ensures all == PassOut(done, refused, false, []) && PassEffects(all) == DeleteEffects(done)
  {}

  /** What trying one record does. */
  function TryEffects(id: string, policy: string -> Policy, keeps: set<string>): seq<Effect> {
    if !policy(id).Allow? then []
    else if id in keeps then [UpstreamDelete(id)]
    else [UpstreamDelete(id), RecordDelete(id)]
  }

  lemma TryExtends(d: Disk, done: seq<string>, id: string, policy: string -> Policy, keeps: set<string>)
    ensures Replay(Replay(d, DeleteEffects(done)), TryEffects(id, policy, keeps))
         == Replay(d, DeleteEffects(done) + TryEffects(id, policy, keeps))
    ensures policy(id).Allow? && id !in keeps ==>
              DeleteEffects(done) + TryEffects(id, policy, keeps) == DeleteEffects(done + [id])
    ensures !policy(id).Allow? ==> DeleteEffects(done) + TryEffects(id, policy, keeps) == DeleteEffects(done)
  {
    DeleteEffectsSnoc(done, id);
    ReplayConcat(d, DeleteEffects(done), TryEffects(id, policy, keeps));
  }

  method SelectScope(records: map<string, Stored>, ids: seq<string>, role: string, cutoff: Time)
    returns (found: seq<string>)
    requires forall id :: id in ids ==> id in records
    ensures found == Filter(ScopeOf(records, role, cutoff), ids)
  {
    found := [];
    for i := 0 to |ids|
      invariant found == Filter(ScopeOf(records, role, cutoff), ids[..i])
    {
      FilterNext(ScopeOf(records, role, cutoff), ids, i);
      var id := ids[i];
      var stored := records[id];
      if stored.Unreadable? || stored.role != role { continue; }
      if stored.created != 0 && stored.created > cutoff { continue; }
      found := found + [id];
    }
    assert ids[..|ids|] == ids;
  }

  class Mount {
    var records: map<string, Stored>
    var intents: map<string, Intent>
    var live: set<string>
    ghost var log: seq<Effect>

    function View(): Disk
      reads this
    {
      Disk(records, intents, live)
    }

    method DeleteClient(id: string, policy: string -> Policy) returns (status: int, err: bool)
      modifies this`live
      ensures OutcomeOf(status, err) ==
              match policy(id) case Allow => Done case Throttle => Throttled case Refuse => Failed
      ensures live == if policy(id).Allow? then old(live) - {id} else old(live)
    {
      match policy(id)
      case Throttle => return 429, true;
      case Refuse => return 500, true;
      case Allow =>
        if id !in live { return 404, true; }
        live := live - {id};
        return 204, false;
    }

    method Scan(role: string, cutoff: Time, fails: bool) returns (r: Option<seq<string>>)
      ensures r == if fails then None else Some(Scope(records, role, cutoff))
    {
      if fails { return None; }
      var ids := ListSorted(records.Keys);
      var found := SelectScope(records, ids, role, cutoff);
      return Some(found);
    }

    /** One record of a pass: its credential first, and its record only once that is gone. */
    method Try(id: string, policy: string -> Policy, keeps: set<string>) returns (outcome: Outcome, err: bool)
      modifies this
      ensures outcome == match policy(id) case Allow => Done case Throttle => Throttled case Refuse => Failed
      ensures err == (policy(id).Allow? && id in keeps)
      ensures View() == Replay(old(View()), TryEffects(id, policy, keeps))
      ensures log == old(log) + TryEffects(id, policy, keeps)
    {
      ghost var d := View();
      var status, refusal := DeleteClient(id, policy);
      outcome := OutcomeOf(status, refusal);
      if outcome != Done { return outcome, false; }
      log := log + [UpstreamDelete(id)];
      ReplayEach(d, [], UpstreamDelete(id));
      ReplayEach(d, [UpstreamDelete(id)], RecordDelete(id));
      assert [] + [UpstreamDelete(id)] == [UpstreamDelete(id)];
      assert [UpstreamDelete(id)] + [RecordDelete(id)] == [UpstreamDelete(id), RecordDelete(id)];
      if id in keeps { return outcome, true; }
      records := records - {id};
      log := log + [RecordDelete(id)];
      return outcome, false;
    }

    /** The loop of a pass over the records it scanned. */
    method TryEach(scan: seq<string>, budget: nat, policy: string -> Policy, keeps: set<string>)
      returns (deleted: nat, failed: nat, throttled: bool, err: bool)
      modifies this
      ensures var out := PassOver(scan, budget, policy, keeps);
              && View() == Replay(old(View()), PassEffects(out)) && log == old(log) + PassEffects(out)
              && deleted == |out.deleted| && failed == |out.failed|
              && throttled == out.throttled && err == (out.stranded != [])
    {
      hide PassOver;
      deleted, failed, throttled, err := 0, 0, false, false;
      ghost var all := PassOver(scan, budget, policy, keeps);
      ghost var d0, log0 := View(), log;
      ghost var done: seq<string>, refused: seq<string> := [], [];
      assert scan[0..] == scan;
      var i := 0;
      while i < |scan| && deleted + failed < budget
        invariant i <= |scan| && deleted == |done| && failed == |refused| && !throttled && !err
        invariant Midway(all, scan, i, budget, policy, keeps, done, refused)
        invariant View() == Replay(d0, DeleteEffects(done)) && log == log0 + DeleteEffects(done)
      {
        var id := scan[i];
        MidwayNext(all, scan, i, budget, policy, keeps, done, refused);
        TryExtends(d0, done, id, policy, keeps);
        Regroup(log0, DeleteEffects(done), TryEffects(id, policy, keeps));
        var outcome, failure := Try(id, policy, keeps);
        if outcome == Throttled { return deleted, failed, true, false; }
        i := i + 1;
        if outcome == Failed {
          failed := failed + 1;
          refused := refused + [id];
          continue;
        }
        if failure { return deleted, failed, false, true; }
        deleted := deleted + 1;
        done := done + [id];
      }
      MidwayEnds(all, scan, i, budget, policy, keeps, done, refused);
    }

    /** One bounded pass; `err` is the storage error that ends it. */
    method Pass(role: string, cutoff: Time, maxDeletes: int, policy: string -> Policy, faults: Faults)
      returns (result: Result, err: bool)
      modifies this
      ensures faults.scan ==> err && View() == old(View()) && log == old(log)
      ensures !faults.scan ==>
                var scan := Scope(old(records), role, cutoff);
                var out := PassOver(scan, Budget(maxDeletes), policy, faults.keeps);
                && View() == Replay(old(View()), PassEffects(out))
                && log == old(log) + PassEffects(out)
                && err == (out.stranded != [])
                && result.tracked == |scan| && result.deleted == |out.deleted| && result.failed == |out.failed|
                && result.throttled == out.throttled
                && (!err ==> result.remaining == |scan| - |out.deleted|)
    {
      var scanned := Scan(role, cutoff, faults.scan);
      if scanned.None? { return Result(0, 0, 0, 0, false), true; }
      var deleted, failed, throttled, failure := TryEach(scanned.value, Budget(maxDeletes), policy, faults.keeps);
      var remaining := if failure then 0 else |scanned.value| - deleted;
      return Result(|scanned.value|, deleted, failed, remaining, throttled), failure;
    }

    method Save(intent: Intent, fails: bool) returns (err: bool)
      modifies this`intents, this`log
      ensures err == fails
      ensures fails ==> View() == old(View()) && log == old(log)
      ensures !fails ==> View() == Apply(old(View()), SaveIntent(intent)) && log == old(log) + [SaveIntent(intent)]
    {
      if fails { return true; }
      intents := intents[intent.role := intent];
      log := log + [SaveIntent(intent)];
      return false;
    }

    /** Arming persists the decision, and nothing is deleted before it is persisted. */
    method Arm(role: string, now: Time, faults: Faults) returns (armed: Option<Intent>)
      modifies this
      ensures armed.None? <==> faults.scan || faults.save
      ensures armed.None? ==> View() == old(View()) && log == old(log)
      ensures armed.Some? ==>
                && armed.value == ArmedIntent(old(View()), role, now)
                && armed.value.role == role && armed.value.armedAt == armed.value.cutoff == now
                && armed.value.tracked == |Scope(old(records), role, now)|
                && armed.value.deleted == armed.value.failed == 0
                && (armed.value.complete <==> Scope(old(records), role, now) == [])
                && View() == Apply(old(View()), SaveIntent(armed.value))
                && log == old(log) + [SaveIntent(armed.value)]
    {
      var scanned := Scan(role, now, faults.scan);
      if scanned.None? { return None; }
      var n := |scanned.value|;
      var intent := Intent(role, now, now, n, 0, 0, n == 0);
      var err := Save(intent, faults.save);
      return if err then None else Some(intent);
    }

    /** One bounded pass for an intent. After a storage error in the pass neither the intent in
        hand nor the stored one counts what the pass deleted. */
    method Advance(intent: Intent, maxDeletes: int, policy: string -> Policy, faults: Faults)
      returns (next: Intent, result: Result, err: bool)
      modifies this
      ensures View() == Replay(old(View()), AdvanceEffects(old(View()), intent, maxDeletes, policy, faults))
      ensures log == old(log) + AdvanceEffects(old(View()), intent, maxDeletes, policy, faults)
      ensures var out := PassFor(old(View()), intent, maxDeletes, policy, faults.keeps);
              var failed := faults.scan || out.stranded != [];
              && next == (if intent.complete || failed then intent else AdvancedIntent(old(View()), intent, out))
              && err == (!intent.complete && (failed || faults.save))
              && (!err ==> result.remaining ==
                             if intent.complete then 0
                             else |Scope(old(records), intent.role, intent.cutoff)| - |out.deleted|)
    {
      hide Filter, PassOver, PassEffects, InScope;
      ghost var d, log0 := View(), log;
      assert log0 + [] == log0;
      if intent.complete { return intent, Result(0, 0, 0, 0, false), false; }
      if !faults.scan { AdvanceEnds(d, intent, maxDeletes, policy, faults); }
      var r, passErr := Pass(intent.role, intent.cutoff, maxDeletes, policy, faults);
      if passErr { return intent, r, true; }
      ghost var out := PassFor(d, intent, maxDeletes, policy, faults.keeps);
      next := intent.(deleted := intent.deleted + r.deleted, failed := r.failed, complete := r.remaining == 0);
      assert next == AdvancedIntent(d, intent, out);
      Regroup(log0, PassEffects(out), [SaveIntent(next)]);
      var saveErr := Save(next, faults.save);
      return next, r, saveErr;
    }

    /** The operator's call. A dry run counts and changes nothing; otherwise the intent is armed
        before the first deletion, and one pass runs. */
    method Write(role: string, dryRun: bool, now: Time, maxDeletes: int, policy: string -> Policy,
                 armFaults: Faults, passFaults: Faults)
      returns (remaining: Option<int>)
      modifies this
      ensures dryRun ==> View() == old(View()) && log == old(log)
      ensures dryRun && remaining.Some? ==> remaining.value == |Scope(old(records), role, now)|
      ensures !dryRun ==>
                if armFaults.scan || armFaults.save then remaining.None? && log == old(log) && View() == old(View())
                else
                  var i := ArmedIntent(old(View()), role, now);
                  var d := Apply(old(View()), SaveIntent(i));
                  var es := AdvanceEffects(d, i, maxDeletes, policy, passFaults);
                  log == old(log) + ([SaveIntent(i)] + es) && View() == Replay(d, es)
      ensures !dryRun && remaining.Some? ==> remaining.value == |Scope(records, role, now)|
    {
      if dryRun {
        var scanned := Scan(role, now, armFaults.scan);
        if scanned.None? { return None; }
        return Some(|scanned.value|);
      }
      ghost var log0 := log;
      var armed := Arm(role, now, armFaults);
      if armed.None? { return None; }
      ghost var d := View();
      ghost var es := AdvanceEffects(d, armed.value, maxDeletes, policy, passFaults);
      var next, result, err := Advance(armed.value, maxDeletes, policy, passFaults);
      Regroup(log0, [SaveIntent(armed.value)], es);
      if err { return None; }
      if !armed.value.complete { AdvanceShrinksScope(d, armed.value, maxDeletes, policy, passFaults); }
      return Some(result.remaining);
    }

    /** Continues every armed purge by one pass; `order` is the order the roles were listed in. A role
        whose intent cannot be read, or which cannot be resolved, is skipped. */
    method Sweep(maxDeletes: int, policy: string -> Policy, resolvable: set<string>, faults: string -> Faults,
                 listFails: bool, unreadable: set<string>)
      returns (err: bool, ghost order: seq<string>)
      requires forall role :: role in intents ==> intents[role].role == role
      modifies this
      ensures err == listFails && (err ==> View() == old(View()) && log == old(log))
      ensures !err ==> Distinct(order) && forall role :: role in order <==> role in old(intents)
      ensures !err ==> View() == Swept(old(View()), order, maxDeletes, policy, resolvable - unreadable, faults)
      ensures !err ==> forall role ::
                SameRole(View(),
                         if && role in old(intents) && !old(intents)[role].complete
                            && role in resolvable && role !in unreadable
                         then Replay(old(View()),
                                     AdvanceEffects(old(View()), old(intents)[role], maxDeletes, policy, faults(role)))
                         else old(View()),
                         role)
    {
      order := [];
      if listFails { return true, []; }
      var roles := ListKeys(intents.Keys);
      order := roles;
      ghost var d, swept := View(), resolvable - unreadable;
      for n := 0 to |roles|
        invariant View() == Swept(d, roles[..n], maxDeletes, policy, swept, faults)
        invariant forall role :: role in intents ==> intents[role].role == role
      {
        var role := roles[n];
        assert roles[..n + 1][..n] == roles[..n];
        if role in unreadable { continue; }
        if role !in intents { continue; }
        var intent := intents[role];
        if intent.complete { continue; }
        if role !in resolvable { continue; }
        ghost var before := View();
        AdvanceReplay(before, intent, maxDeletes, policy, faults(role));
        var next, result, passErr := Advance(intent, maxDeletes, policy, faults(role));
      }
      assert roles[..|roles|] == roles;
      SweepAdvancesEach(d, roles, maxDeletes, policy, resolvable, unreadable, faults);
      return false, order;
    }
  }

  // ----- a pass in closed form, and why sweeping one role leaves the others alone ----------

  lemma {:induction false} DeletesReplay(d: Disk, ids: seq<string>)
    ensures Replay(d, DeleteEffects(ids)) ==
              d.(records := d.records - Elements(ids), live := d.live - Elements(ids))
    decreases ids
  {
    if ids != [] {
      var first := [UpstreamDelete(ids[0]), RecordDelete(ids[0])];
      ReplayConcat(d, first, DeleteEffects(ids[1..]));
      assert first == [first[0]] + [first[1]] && [] + [first[0]] == [first[0]];
      ReplayEach(d, [], first[0]);
      ReplayEach(d, [first[0]], first[1]);
      DeletesReplay(Apply(Apply(d, first[0]), first[1]), ids[1..]);
      assert Elements(ids) == {ids[0]} + Elements(ids[1..]);
    } else {
      assert Elements(ids) == {};
    }
  }

  lemma PassReplay(d: Disk, out: PassOut)
    requires |out.stranded| <= 1
    ensures Replay(d, PassEffects(out)) ==
              d.(records := d.records - Elements(out.deleted),
                 live := d.live - Elements(out.deleted) - Elements(out.stranded))
  {
    DeletesReplay(d, out.deleted);
    if out.stranded == [] {
      assert PassEffects(out) == DeleteEffects(out.deleted) && Elements(out.stranded) == {};
    } else {
      ReplayEach(d, DeleteEffects(out.deleted), UpstreamDelete(out.stranded[0]));
      assert Elements(out.stranded) == {out.stranded[0]};
    }
  }

  /** One `Advance` in closed form. */
  lemma AdvanceReplay(d: Disk, i: Intent, maxDeletes: int, policy: string -> Policy, faults: Faults)
    ensures var after := Replay(d, AdvanceEffects(d, i, maxDeletes, policy, faults));
            var out := PassFor(d, i, maxDeletes, policy, faults.keeps);
            if i.complete || faults.scan then after == d
            else
              && after.records == d.records - Elements(out.deleted)
              && after.live == d.live - Elements(out.deleted) - Elements(out.stranded)
              && after.intents == (if out.stranded != [] || faults.save then d.intents
                                   else d.intents[i.role := AdvancedIntent(d, i, out)])
  {
    if !i.complete && !faults.scan {
      var out := PassFor(d, i, maxDeletes, policy, faults.keeps);
      OutWithin(Scope(d.records, i.role, i.cutoff), Budget(maxDeletes), policy, faults.keeps);
      PassReplay(d, out);
      if out.stranded != [] || faults.save {
        assert AdvanceEffects(d, i, maxDeletes, policy, faults) == PassEffects(out);
      } else {
        ReplayEach(d, PassEffects(out), SaveIntent(AdvancedIntent(d, i, out)));
      }
    }
  }

  function Outside(ids: seq<string>): string -> bool {
    (id: string) => id !in ids
  }

  lemma RemovedCount(s: seq<string>, t: seq<string>)
    requires Distinct(s) && Distinct(t) && forall x :: x in t ==> x in s
    ensures |Filter(Outside(t), s)| == |s| - |t|
  {
    var kept := Filter(Outside(t), s);
    FilterMembers(Outside(t), s);
    FilterDistinct(Outside(t), s);
    DistinctCount(s);
    DistinctCount(t);
    DistinctCount(kept);
    assert Elements(kept) == Elements(s) - Elements(t);
    assert Elements(t) <= Elements(s);
  }

  lemma {:induction false} PassDeletesFromScan(scan: seq<string>, budget: int, policy: string -> Policy,
                                               keeps: set<string>)
    requires Distinct(scan)
    ensures var out := PassOver(scan, budget, policy, keeps);
            Distinct(out.deleted) && forall id :: id in out.deleted ==> id in scan
  {
    if scan != [] {
      PassDeletesFromScan(scan[1..], budget - 1, policy, keeps);
      assert scan[0] !in scan[1..];
    }
  }

  /** What is left in scope when the records of `ids` are gone. */
  lemma ScopeWithout(d: Disk, role: string, cutoff: Time, ids: seq<string>)
    ensures Scope(d.records - Elements(ids), role, cutoff) == Filter(Outside(ids), Scope(d.records, role, cutoff))
  {
    var e := d.(records := d.records - Elements(ids));
    var scan := Scope(d.records, role, cutoff);
    ScopeMembers(d, role, cutoff);
    ScopeMembers(e, role, cutoff);
    FilterMembers(Outside(ids), scan);
    FilterAscending(Outside(ids), scan);
    AscendingUnique(Scope(e.records, role, cutoff), Filter(Outside(ids), scan));
  }

  /** An `Advance` that reads its scan removes from scope what its pass deleted and nothing else. */
  lemma AdvanceShrinksScope(d: Disk, i: Intent, maxDeletes: int, policy: string -> Policy, faults: Faults)
    requires !i.complete && !faults.scan
    ensures var scan := Scope(d.records, i.role, i.cutoff);
            var out := PassFor(d, i, maxDeletes, policy, faults.keeps);
            var after := Replay(d, AdvanceEffects(d, i, maxDeletes, policy, faults));
            && Scope(after.records, i.role, i.cutoff) == Filter(Outside(out.deleted), scan)
            && |Scope(after.records, i.role, i.cutoff)| == |scan| - |out.deleted|
  {
    var out := PassFor(d, i, maxDeletes, policy, faults.keeps);
    AdvanceReplay(d, i, maxDeletes, policy, faults);
    ScopeMembers(d, i.role, i.cutoff);
    PassDeletesFromScan(Scope(d.records, i.role, i.cutoff), Budget(maxDeletes), policy, faults.keeps);
    ScopeWithout(d, i.role, i.cutoff, out.deleted);
    RemovedCount(Scope(d.records, i.role, i.cutoff), out.deleted);
  }

  predicate Due(d: Disk, role: string, resolvable: set<string>) {
    role in d.intents && !d.intents[role].complete && role in resolvable
  }

  ghost function SweptOne(d: Disk, role: string, maxDeletes: int, policy: string -> Policy,
                          resolvable: set<string>, faults: string -> Faults): Disk
  {
    if Due(d, role, resolvable)
    then Replay(d, AdvanceEffects(d, d.intents[role], maxDeletes, policy, faults(role)))
    else d
  }

  ghost function Swept(d: Disk, roles: seq<string>, maxDeletes: int, policy: string -> Policy,
                       resolvable: set<string>, faults: string -> Faults): Disk
  {
    if roles == [] then d
    else SweptOne(Swept(d, roles[..|roles| - 1], maxDeletes, policy, resolvable, faults),
                  roles[|roles| - 1], maxDeletes, policy, resolvable, faults)
  }

  /** The two disks agree on everything about one role. */
  ghost predicate SameRole(d: Disk, e: Disk, role: string) {
    && (role in d.intents <==> role in e.intents)
    && (role in d.intents ==> d.intents[role] == e.intents[role])
    && (forall id :: OfRole(d, id, role) <==> OfRole(e, id, role))
    && (forall id :: OfRole(d, id, role) && OfRole(e, id, role) ==> d.records[id] == e.records[id])
  }

  predicate OfRole(d: Disk, id: string, role: string) {
    id in d.records && d.records[id].Record? && d.records[id].role == role
  }

  ghost predicate IntentsKeyed(d: Disk) {
    forall role :: role in d.intents ==> d.intents[role].role == role
  }

  lemma ScopeOfSameRole(d: Disk, e: Disk, role: string, cutoff: Time)
    requires SameRole(d, e, role)
    ensures Scope(d.records, role, cutoff) == Scope(e.records, role, cutoff)
  {
    ScopeMembers(d, role, cutoff);
    ScopeMembers(e, role, cutoff);
    forall id ensures id in InScopeIds(d, role, cutoff) <==> id in InScopeIds(e, role, cutoff) {
      assert OfRole(d, id, role) <==> OfRole(e, id, role);
    }
    AscendingUnique(Scope(d.records, role, cutoff), Scope(e.records, role, cutoff));
  }

  lemma SweptKeepsKeys(d: Disk, role: string, maxDeletes: int, policy: string -> Policy,
                       resolvable: set<string>, faults: string -> Faults)
    requires IntentsKeyed(d)
    ensures IntentsKeyed(SweptOne(d, role, maxDeletes, policy, resolvable, faults))
  {
    if Due(d, role, resolvable) { AdvanceReplay(d, d.intents[role], maxDeletes, policy, faults(role)); }
  }

  lemma OthersKept(d: Disk, d1: Disk, role: string, ids: set<string>)
    requires d1.records == d.records - ids && forall id :: id in ids ==> !OfRole(d, id, role)
    requires role in d.intents <==> role in d1.intents
    requires role in d.intents ==> d.intents[role] == d1.intents[role]
    ensures SameRole(d1, d, role)
  {}

  lemma DeletedAreOfRole(d: Disk, i: Intent, maxDeletes: int, policy: string -> Policy, keeps: set<string>,
                          role: string)
    requires role != i.role
    ensures forall id :: id in Elements(PassFor(d, i, maxDeletes, policy, keeps).deleted) ==> !OfRole(d, id, role)
  {
    ScopeMembers(d, i.role, i.cutoff);
    PassDeletesFromScan(Scope(d.records, i.role, i.cutoff), Budget(maxDeletes), policy, keeps);
    forall id | id in PassFor(d, i, maxDeletes, policy, keeps).deleted ensures !OfRole(d, id, role) {
      assert id in InScopeIds(d, i.role, i.cutoff);
    }
  }

  lemma OtherRoleKept(d: Disk, role: string, other: string, maxDeletes: int, policy: string -> Policy,
                      resolvable: set<string>, faults: string -> Faults)
    requires role != other && IntentsKeyed(d)
    ensures SameRole(SweptOne(d, other, maxDeletes, policy, resolvable, faults), d, role)
  {
    if Due(d, other, resolvable) {
      var i, f := d.intents[other], faults(other);
      AdvanceReplay(d, i, maxDeletes, policy, f);
      DeletedAreOfRole(d, i, maxDeletes, policy, f.keeps, role);
      if !f.scan {
        OthersKept(d, Replay(d, AdvanceEffects(d, i, maxDeletes, policy, f)), role,
                   Elements(PassFor(d, i, maxDeletes, policy, f.keeps).deleted));
      }
    }
  }

  /** Removing the same records and storing the same intent keeps two disks in step. */
  lemma SameRoleWithout(d: Disk, e: Disk, role: string, ids: set<string>, saved: Option<Intent>, d1: Disk, e1: Disk)
    requires SameRole(d, e, role)
    requires d1.records == d.records - ids && e1.records == e.records - ids
    requires d1.intents == if saved.Some? then d.intents[role := saved.value] else d.intents
    requires e1.intents == if saved.Some? then e.intents[role := saved.value] else e.intents
    ensures SameRole(d1, e1, role)
  {
    forall id
      ensures OfRole(d1, id, role) <==> OfRole(e1, id, role)
      ensures OfRole(d1, id, role) && OfRole(e1, id, role) ==> d1.records[id] == e1.records[id]
    {
      assert OfRole(d, id, role) <==> OfRole(e, id, role);
    }
  }

  lemma SameRoleSwept(d: Disk, e: Disk, role: string, maxDeletes: int, policy: string -> Policy,
                      resolvable: set<string>, faults: string -> Faults)
    requires SameRole(d, e, role) && IntentsKeyed(d) && IntentsKeyed(e)
    ensures SameRole(SweptOne(d, role, maxDeletes, policy, resolvable, faults),
                     SweptOne(e, role, maxDeletes, policy, resolvable, faults), role)
  {
    if Due(d, role, resolvable) && !faults(role).scan {
      var i := d.intents[role];
      var out := PassFor(d, i, maxDeletes, policy, faults(role).keeps);
      ScopeOfSameRole(d, e, role, i.cutoff);
      AdvanceReplay(d, i, maxDeletes, policy, faults(role));
      AdvanceReplay(e, i, maxDeletes, policy, faults(role));
      var saved := if out.stranded != [] || faults(role).save then None else Some(AdvancedIntent(d, i, out));
      SameRoleWithout(d, e, role, Elements(out.deleted), saved,
                      SweptOne(d, role, maxDeletes, policy, resolvable, faults),
                      SweptOne(e, role, maxDeletes, policy, resolvable, faults));
    }
  }

  lemma SameRoleTransitive(d: Disk, e: Disk, f: Disk, role: string)
    requires SameRole(d, e, role) && SameRole(e, f, role)
    ensures SameRole(d, f, role)
  {
    forall id
      ensures OfRole(d, id, role) <==> OfRole(f, id, role)
      ensures OfRole(d, id, role) && OfRole(f, id, role) ==> d.records[id] == f.records[id]
    {
      assert OfRole(d, id, role) <==> OfRole(e, id, role);
    }
  }

  lemma {:induction false} SweptKeyed(d: Disk, roles: seq<string>, maxDeletes: int, policy: string -> Policy,
                                      resolvable: set<string>, faults: string -> Faults)
    requires IntentsKeyed(d)
    ensures IntentsKeyed(Swept(d, roles, maxDeletes, policy, resolvable, faults))
  {
    if roles != [] {
      var before := roles[..|roles| - 1];
      SweptKeyed(d, before, maxDeletes, policy, resolvable, faults);
      SweptKeepsKeys(Swept(d, before, maxDeletes, policy, resolvable, faults), roles[|roles| - 1],
                     maxDeletes, policy, resolvable, faults);
    }
  }

  /** A sweep does for each role exactly what advancing that role alone would do, in whatever
      order the roles come and whatever happens to the others. */
  lemma {:induction false} SweepIsolatesRoles(d: Disk, roles: seq<string>, role: string, maxDeletes: int,
      policy: string -> Policy, resolvable: set<string>, faults: string -> Faults)
    requires Distinct(roles) && IntentsKeyed(d)
    ensures SameRole(Swept(d, roles, maxDeletes, policy, resolvable, faults),
                     if role in roles then SweptOne(d, role, maxDeletes, policy, resolvable, faults) else d, role)
  {
    if roles != [] {
      var n := |roles| - 1;
      var before, last := roles[..n], roles[n];
      var mid := Swept(d, before, maxDeletes, policy, resolvable, faults);
      assert roles == before + [last] && last !in before;
      SweepIsolatesRoles(d, before, role, maxDeletes, policy, resolvable, faults);
      SweptKeyed(d, before, maxDeletes, policy, resolvable, faults);
      var after := SweptOne(mid, last, maxDeletes, policy, resolvable, faults);
      if last == role {
        SameRoleSwept(mid, d, role, maxDeletes, policy, resolvable, faults);
      } else {
        OtherRoleKept(mid, role, last, maxDeletes, policy, resolvable, faults);
        SameRoleTransitive(after, mid,
          if role in roles then SweptOne(d, role, maxDeletes, policy, resolvable, faults) else d, role);
      }
    }
  }

  /** Whom a sweep advances: each role with an unfinished intent that can be read and a role that
      resolves, whatever its earlier passes met. Every other role is left as it was. */
  lemma SweepAdvancesEach(d: Disk, roles: seq<string>, maxDeletes: int, policy: string -> Policy,
                          resolvable: set<string>, unreadable: set<string>, faults: string -> Faults)
    requires Distinct(roles) && IntentsKeyed(d) && forall role :: role in roles <==> role in d.intents
    ensures forall role ::
              SameRole(Swept(d, roles, maxDeletes, policy, resolvable - unreadable, faults),
                       if && role in d.intents && !d.intents[role].complete
                          && role in resolvable && role !in unreadable
                       then Replay(d, AdvanceEffects(d, d.intents[role], maxDeletes, policy, faults(role)))
                       else d,
                       role)
  {
    hide Swept, SameRole, Replay, AdvanceEffects;
    forall role
      ensures SameRole(Swept(d, roles, maxDeletes, policy, resolvable - unreadable, faults),
                       if && role in d.intents && !d.intents[role].complete
                          && role in resolvable && role !in unreadable
                       then Replay(d, AdvanceEffects(d, d.intents[role], maxDeletes, policy, faults(role)))
                       else d,
                       role)
    {
      SweepIsolatesRoles(d, roles, role, maxDeletes, policy, resolvable - unreadable, faults);
    }
  }
}
