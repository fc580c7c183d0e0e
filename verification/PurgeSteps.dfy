/** A purge step by step. No lock is shared between a purge pass and the role's own traffic, so
    leases are revoked and credentials issued between any two steps of a pass: while it lists,
    while it reads the records it listed, between deleting a credential and its record, and before
    it saves the intent. A step may also be the pass's last: the node may die anywhere. */
module PurgeSteps {
  import opened Common
  import opened Order
  import opened Purge
  import opened PurgeRuns

  /** One purge: what was in scope when it was armed. `policy` and `budget` only say which passes
      count as working ones. */
  datatype Goal = Goal(role: string, cutoff: Time, armed: set<string>, policy: string -> Policy, budget: nat)

  /** Where the pass under way has got. While `forgetting`, the credential of the next record is
      already deleted and the record is not. */
  datatype Phase =
    | Idle
    | Reading(budget: nat, listed: seq<string>, next: nat, found: seq<string>)
    | Deleting(budget: nat, found: seq<string>, deleted: nat, failed: nat, forgetting: bool, throttled: bool)

  /** History. `purged` are the records in scope that passes removed, `revoked` those that leases
      did, `twice` those a lease removed under a pass that counts them all the same; `late` were
      tracked in scope after arming; `lost` counts deletions whose count was never saved; `worked`
      counts passes that read and deleted without a failure of theirs, met the goal's policy and
      ran to their end. */
  datatype Tally = Tally(used: set<string>, purged: set<string>, revoked: set<string>, twice: set<string>,
                         late: set<string>, lost: nat, worked: nat)

  /** Of the pass under way: the scope it began with, what it counts as deleted, and whether it is
      a working one so far. */
  datatype Round = Round(began: set<string>, forgotten: set<string>, faithful: bool)

  datatype World = World(records: map<string, Stored>, live: set<string>, intent: Intent, phase: Phase,
                         tally: Tally, round: Round)

  datatype Event =
    | Issue(id: string, role: string, minter: string, at: Time)
    | RevokeUpstream(id: string)
    | RemoveRecord(id: string)
    | Begin(maxDeletes: int)
    | ReadOne
    | EndScan
    | Ask(answer: Policy)
    | Forget(fails: bool)
    | Save(fails: bool)
    | Abort

  function Remaining(g: Goal, records: map<string, Stored>): set<string> {
    set id | id in records && InScope(records[id], g.role, g.cutoff)
  }

  predicate Over(p: Phase) {
    p.Deleting? && !p.forgetting
    && (p.throttled || p.deleted + p.failed >= |p.found| || p.deleted + p.failed >= p.budget)
  }

  /** Ids are never reused. A purge has one pass at a time, and a finished one has none. */
  predicate Enabled(w: World, e: Event) {
    match e
    case Issue(id, _, _, _) => id !in w.tally.used
    case RevokeUpstream(_) => true
    case RemoveRecord(_) => true
    case Begin(_) => w.phase.Idle? && !w.intent.complete
    case ReadOne => w.phase.Reading? && w.phase.next < |w.phase.listed|
    case EndScan => w.phase.Reading? && w.phase.next >= |w.phase.listed|
    case Ask(_) => w.phase.Deleting? && !w.phase.forgetting && !Over(w.phase)
    case Forget(_) => w.phase.Deleting? && w.phase.forgetting && w.phase.deleted + w.phase.failed < |w.phase.found|
    case Save(_) => Over(w.phase)
    case Abort => !w.phase.Idle?
  }

  function Pending(p: Phase): nat {
    if p.Deleting? then p.deleted else 0
  }

  ghost function Tracked(g: Goal, w: World, id: string, record: Stored): World {
    w.(records := w.records[id := record], live := w.live + {id},
       tally := w.tally.(used := w.tally.used + {id},
                         late := if InScope(record, g.role, g.cutoff) then w.tally.late + {id} else w.tally.late))
  }

  ghost function Removed(g: Goal, w: World, id: string): World {
    w.(records := w.records - {id},
       tally := if id in Remaining(g, w.records) then w.tally.(revoked := w.tally.revoked + {id}) else w.tally)
  }

  ghost function Begun(g: Goal, w: World, maxDeletes: int): World {
    w.(phase := Reading(Budget(maxDeletes), SortedKeys(w.records.Keys), 0, []),
       round := Round(Remaining(g, w.records), {}, Budget(maxDeletes) >= g.budget))
  }

  ghost function ReadNext(g: Goal, w: World): World
    requires Enabled(w, ReadOne)
  {
    var p := w.phase;
    var id := p.listed[p.next];
    w.(phase := Reading(p.budget, p.listed, p.next + 1,
                        if id in Remaining(g, w.records) then p.found + [id] else p.found))
  }

  ghost function Scanned(w: World): World
    requires w.phase.Reading?
  {
    w.(phase := Deleting(w.phase.budget, w.phase.found, 0, 0, false, false))
  }

  ghost function Target(w: World): string
    requires w.phase.Deleting? && w.phase.deleted + w.phase.failed < |w.phase.found|
  {
    w.phase.found[w.phase.deleted + w.phase.failed]
  }

  ghost function Asked(g: Goal, w: World, answer: Policy): World
    requires Enabled(w, Ask(answer))
  {
    var p := w.phase;
    w.(phase := Deleting(p.budget, p.found, p.deleted, p.failed + (if answer.Refuse? then 1 else 0), answer.Allow?,
                         answer.Throttle?),
       live := if answer.Allow? then w.live - {Target(w)} else w.live,
       round := w.round.(faithful := w.round.faithful && answer == g.policy(Target(w)) && !answer.Throttle?))
  }

  ghost function Forgotten(w: World): World
    requires Enabled(w, Forget(false))
  {
    var p, id := w.phase, Target(w);
    World(w.records - {id}, w.live, w.intent, Deleting(p.budget, p.found, p.deleted + 1, p.failed, false, p.throttled),
          if id in w.records then w.tally.(purged := w.tally.purged + {id})
          else w.tally.(twice := w.tally.twice + {id}),
          w.round.(forgotten := w.round.forgotten + {id}))
  }

  ghost function Saved(w: World): World
    requires w.phase.Deleting?
  {
    var p := w.phase;
    w.(phase := Idle,
       intent := w.intent.(deleted := w.intent.deleted + p.deleted, failed := p.failed,
                           complete := |p.found| == p.deleted))
  }

  /** A pass that ends without saving its count. */
  ghost function Dropped(w: World): World {
    w.(phase := Idle, tally := w.tally.(lost := w.tally.lost + Pending(w.phase)))
  }

  ghost function Worked(w: World): World {
    if w.round.faithful then w.(tally := w.tally.(worked := w.tally.worked + 1)) else w
  }

  ghost function Next(g: Goal, w: World, e: Event): World
    requires Enabled(w, e)
  {
    match e
    case Issue(id, role, minter, at) => Tracked(g, w, id, Record(role, minter, Stamp(at)))
    case RevokeUpstream(id) => w.(live := w.live - {id})
    case RemoveRecord(id) => Removed(g, w, id)
    case Begin(maxDeletes) => Begun(g, w, maxDeletes)
    case ReadOne => ReadNext(g, w)
    case EndScan => Scanned(w)
    case Ask(answer) => Asked(g, w, answer)
    case Forget(fails) => if fails then Dropped(w) else Forgotten(w)
    case Save(fails) => if fails then Dropped(Worked(w)) else Saved(Worked(w))
    case Abort => Dropped(w)
  }

  // ----- the invariant -------------------------------------------------------------------

  /** What was in scope at arming or came into it since is left, purged or revoked, once each. */
  ghost predicate Partition(g: Goal, records: map<string, Stored>, t: Tally) {
    && (forall id ::
          id in records || id in t.purged || id in t.revoked || id in t.late || id in g.armed ==> id in t.used)
    && (forall id :: id in g.armed || id in t.late <==>
                     id in Remaining(g, records) || id in t.purged || id in t.revoked)
    && (forall id :: id in t.late ==> id !in g.armed)
    && (forall id :: id in t.purged ==> id !in t.revoked && id !in records)
    && (forall id :: id in t.revoked ==> id !in records)
    && (forall id :: id in t.twice ==> id in t.revoked)
  }

  /** Each record counted was purged, or was revoked under the pass that counts it. */
  ghost predicate Counts(g: Goal, w: World) {
    && w.intent.cutoff == g.cutoff && w.intent.role == g.role && w.intent.tracked == |g.armed|
    && w.intent.deleted + w.tally.lost + Pending(w.phase) == |w.tally.purged| + |w.tally.twice|
    && (w.intent.complete ==> forall id :: id in Remaining(g, w.records) ==> id in w.tally.late)
  }

  /** What the pass may still come to, in order. */
  function Ahead(p: Phase): seq<string> {
    match p
    case Idle => []
    case Reading(_, listed, next, found) => found + (if next <= |listed| then listed[next..] else [])
    case Deleting(_, found, _, _, _, _) => found
  }

  ghost predicate ReadingSound(g: Goal, w: World)
    requires w.phase.Reading?
  {
    var p := w.phase;
    && p.next <= |p.listed| && w.round.forgotten == {} && (w.round.faithful ==> p.budget >= g.budget)
    && (forall id :: id in p.listed ==> id in w.tally.used && (id in Remaining(g, w.records) ==> id in w.round.began))
    && (forall id :: id in p.found ==> id in w.round.began && id !in w.tally.purged && id !in w.tally.twice)
  }

  ghost predicate DeletingSound(g: Goal, w: World)
    requires w.phase.Deleting?
  {
    var p := w.phase;
    var n := p.deleted + p.failed;
    && n <= |p.found| && (p.forgetting ==> n < |p.found| && n < p.budget && !p.throttled)
    && |w.round.forgotten| == p.deleted
    && (forall id :: id in p.found ==> id in w.round.began)
    && (forall id :: id in w.round.forgotten ==> id in p.found[..n] && id !in w.records)
    && (forall i :: n <= i < |p.found| ==> p.found[i] !in w.tally.purged && p.found[i] !in w.tally.twice)
    && (w.round.faithful ==>
          && !p.throttled && p.budget >= g.budget
          && forall i :: 0 <= i < n ==> !g.policy(p.found[i]).Allow? || p.found[i] in w.round.forgotten)
  }

  /** A pass misses nothing that was in scope at arming and still is. */
  ghost predicate Covered(g: Goal, w: World) {
    w.phase.Idle? ||
    (&& !w.intent.complete && Ascending(Ahead(w.phase))
     && (forall id :: id in w.round.began ==> id in g.armed || id in w.tally.late)
     && (forall id :: id in Remaining(g, w.records) ==> id in w.round.began || id in w.tally.late)
     && (forall id :: id in Remaining(g, w.records) && id !in w.tally.late ==> id in Ahead(w.phase)))
  }

  ghost predicate Underway(g: Goal, w: World) {
    && Covered(g, w)
    && (w.phase.Reading? ==> ReadingSound(g, w))
    && (w.phase.Deleting? ==> DeletingSound(g, w))
  }

  /** While no count was lost, nothing revoked and nothing tracked late, the intent is complete as
      soon as nothing is left. */
  ghost predicate Undisturbed(t: Tally) {
    t.lost == 0 && t.revoked == {} && t.late == {}
  }

  ghost predicate Prompt(g: Goal, w: World) {
    Undisturbed(w.tally) ==>
      var left := Remaining(g, w.records);
      && (w.phase.Idle? && left == {} ==> w.intent.complete)
      && (!w.phase.Idle? && Pending(w.phase) == 0 ==> left != {})
      && (w.phase.Reading? ==> forall id :: id in w.phase.found ==> id in left)
      && (w.phase.Deleting? ==> forall id :: id in w.phase.found && id !in w.round.forgotten ==> id in left)
  }

  ghost predicate Inv(g: Goal, w: World) {
    Partition(g, w.records, w.tally) && Counts(g, w) && Underway(g, w) && Prompt(g, w)
  }

  // ----- what happens between the steps of a pass ----------------------------------------

  lemma IssuePartition(g: Goal, records: map<string, Stored>, t: Tally, id: string, record: Stored)
    requires Partition(g, records, t) && id !in t.used
    ensures Remaining(g, records[id := record]) ==
            Remaining(g, records) + (if InScope(record, g.role, g.cutoff) then {id} else {})
    ensures Partition(g, records[id := record],
                      t.(used := t.used + {id},
                         late := if InScope(record, g.role, g.cutoff) then t.late + {id} else t.late))
  {
    hide InScope;
  }

  lemma RevokePartition(g: Goal, records: map<string, Stored>, t: Tally, id: string)
    requires Partition(g, records, t)
    ensures Remaining(g, records - {id}) == Remaining(g, records) - {id}
    ensures Partition(g, records - {id},
                      if id in Remaining(g, records) then t.(revoked := t.revoked + {id}) else t)
  {
    hide InScope;
  }

  lemma ForgetPartition(g: Goal, records: map<string, Stored>, t: Tally, id: string)
    requires Partition(g, records, t) && id !in t.purged && (id in g.armed || id in t.late)
    ensures Remaining(g, records - {id}) == Remaining(g, records) - {id}
    ensures Partition(g, records - {id},
                      if id in records then t.(purged := t.purged + {id}) else t.(twice := t.twice + {id}))
  {
    hide InScope;
  }

  // ----- other traffic -------------------------------------------------------------------

  lemma TrackedCovered(g: Goal, w: World, id: string, record: Stored)
    requires Partition(g, w.records, w.tally) && Covered(g, w) && id !in w.tally.used
    ensures Covered(g, Tracked(g, w, id, record))
  {
    IssuePartition(g, w.records, w.tally, id, record);
    hide Remaining, Ascending, InScope, Partition, Ahead;
  }

  lemma TrackedReading(g: Goal, w: World, id: string, record: Stored)
    requires Partition(g, w.records, w.tally) && w.phase.Reading? && ReadingSound(g, w) && id !in w.tally.used
    ensures ReadingSound(g, Tracked(g, w, id, record))
  {
    IssuePartition(g, w.records, w.tally, id, record);
    hide Remaining, InScope, Partition;
  }

  lemma TrackedDeleting(g: Goal, w: World, id: string, record: Stored)
    requires Partition(g, w.records, w.tally) && w.phase.Deleting? && Covered(g, w) && DeletingSound(g, w)
    requires id !in w.tally.used
    ensures DeletingSound(g, Tracked(g, w, id, record))
  {
    assert forall x :: x in w.round.began ==> x in w.tally.used;
    assert forall x :: x in w.round.forgotten ==> x in w.phase.found;
    hide Covered, InScope, Partition;
  }

  lemma TrackedBooks(g: Goal, w: World, id: string, record: Stored)
    requires Partition(g, w.records, w.tally) && Counts(g, w) && Prompt(g, w) && id !in w.tally.used
    ensures Counts(g, Tracked(g, w, id, record)) && Prompt(g, Tracked(g, w, id, record))
  {
    IssuePartition(g, w.records, w.tally, id, record);
    hide Remaining, InScope, Partition;
  }

  lemma TrackedKeeps(g: Goal, w: World, id: string, record: Stored)
    requires Inv(g, w) && id !in w.tally.used
    ensures Inv(g, Tracked(g, w, id, record))
  {
    hide Remaining, InScope, Partition, Counts, Covered, ReadingSound, DeletingSound, Prompt;
    IssuePartition(g, w.records, w.tally, id, record);
    TrackedCovered(g, w, id, record);
    TrackedBooks(g, w, id, record);
    if w.phase.Reading? { TrackedReading(g, w, id, record); }
    if w.phase.Deleting? { TrackedDeleting(g, w, id, record); }
  }

  lemma RemovedKeeps(g: Goal, w: World, id: string)
    requires Inv(g, w)
    ensures Inv(g, Removed(g, w, id))
  {
    RevokePartition(g, w.records, w.tally, id);
    hide Remaining, Ascending, InScope, Partition, Ahead;
    assert Prompt(g, Removed(g, w, id));
  }

  // ----- the steps of a pass -------------------------------------------------------------

  lemma ListingCovers(g: Goal, w: World)
    requires Partition(g, w.records, w.tally)
    ensures var listed := SortedKeys(w.records.Keys);
            && Ascending(listed)
            && (forall id :: id in listed ==> id in w.tally.used)
            && (forall id :: id in Remaining(g, w.records) ==> id in listed && (id in g.armed || id in w.tally.late))
  {
    hide Ascending, InScope;
  }

  lemma BegunCovered(g: Goal, w: World, maxDeletes: int)
    requires Partition(g, w.records, w.tally) && Enabled(w, Begin(maxDeletes))
    ensures Covered(g, Begun(g, w, maxDeletes))
  {
    var listed := SortedKeys(w.records.Keys);
    assert [] + listed[0..] == listed;
    assert Ahead(Begun(g, w, maxDeletes).phase) == listed;
    ListingCovers(g, w);
    hide SortedKeys, Ascending, Remaining, Partition, Ahead;
  }

  lemma BegunReading(g: Goal, w: World, maxDeletes: int)
    requires Partition(g, w.records, w.tally) && Enabled(w, Begin(maxDeletes))
    ensures ReadingSound(g, Begun(g, w, maxDeletes))
  {
    ListingCovers(g, w);
    hide SortedKeys, Ascending, Remaining, Partition;
  }

  lemma BegunKeeps(g: Goal, w: World, maxDeletes: int)
    requires Inv(g, w) && Enabled(w, Begin(maxDeletes))
    ensures Inv(g, Begun(g, w, maxDeletes))
  {
    BegunCovered(g, w, maxDeletes);
    BegunReading(g, w, maxDeletes);
    hide SortedKeys, Remaining, Partition, Covered, ReadingSound;
  }

  /** Passing over a record leaves the rest in order. */
  lemma AscendingWithout(a: seq<string>, x: string, b: seq<string>)
    requires Ascending(a + ([x] + b))
    ensures Ascending(a + b)
  {
    var all := a + ([x] + b);
    forall i, j | 0 <= i < j < |a + b| ensures LexLess((a + b)[i], (a + b)[j]) {
      var k, l := if i < |a| then i else i + 1, if j < |a| then j else j + 1;
      assert all[k] == (a + b)[i] && all[l] == (a + b)[j];
    }
  }

  /** Reading one record drops at most that one from what is ahead, and only if it is not left. */
  lemma ReadAhead(g: Goal, w: World)
    requires Enabled(w, ReadOne) && Ascending(Ahead(w.phase))
    ensures var ahead := Ahead(ReadNext(g, w).phase);
            && Ascending(ahead)
            && forall id :: id in Ahead(w.phase) && id in Remaining(g, w.records) ==> id in ahead
  {
    var p, id := w.phase, w.phase.listed[w.phase.next];
    var rest := p.listed[p.next + 1..];
    assert p.listed[p.next..] == [id] + rest;
    AscendingWithout(p.found, id, rest);
    assert (p.found + [id]) + rest == p.found + ([id] + rest);
    hide Ascending, Remaining;
  }

  lemma ReadKeeps(g: Goal, w: World)
    requires Inv(g, w) && Enabled(w, ReadOne)
    ensures Inv(g, ReadNext(g, w))
  {
    ReadAhead(g, w);
    assert w.phase.listed[w.phase.next] in w.phase.listed;
    assert forall x :: x in Remaining(g, w.records) ==> x !in w.tally.purged && x !in w.tally.twice;
    hide Remaining, Ascending, Ahead, Partition;
    assert Underway(g, ReadNext(g, w));
  }

  lemma ScannedKeeps(g: Goal, w: World)
    requires Inv(g, w) && Enabled(w, EndScan)
    ensures Inv(g, Scanned(w))
  {
    hide Remaining, Ascending, Partition;
    var p := w.phase;
    assert p.listed[p.next..] == [] && p.found + [] == p.found && p.found[..0] == [];
    assert forall i :: 0 <= i < |p.found| ==> p.found[i] in p.found;
    assert Underway(g, Scanned(w));
  }

  lemma AskedKeeps(g: Goal, w: World, answer: Policy)
    requires Inv(g, w) && Enabled(w, Ask(answer))
    ensures Inv(g, Asked(g, w, answer))
  {
    hide Remaining, Ascending, Partition;
    var n := w.phase.deleted + w.phase.failed;
    assert w.phase.found[..n + 1] == w.phase.found[..n] + [w.phase.found[n]];
    assert Underway(g, Asked(g, w, answer));
  }

  // ----- deleting, and the end of a pass -------------------------------------------------

  lemma LaterDiffer(found: seq<string>, n: nat)
    requires Ascending(found) && n < |found|
    ensures forall i :: 0 <= i < |found| && i != n ==> found[i] != found[n]
    ensures found[..n + 1] == found[..n] + [found[n]]
  {
    hide LexLe;
    forall i | 0 <= i < |found| && i != n ensures found[i] != found[n] {
      if i < n { assert LexLess(found[i], found[n]); } else { assert LexLess(found[n], found[i]); }
    }
  }

  /** The record a pass is about to remove was in scope and has not been counted. */
  lemma TargetIsNew(g: Goal, w: World)
    requires Covered(g, w) && w.phase.Deleting? && DeletingSound(g, w) && Enabled(w, Forget(false))
    ensures var id := Target(w);
            && id !in w.tally.purged && id !in w.tally.twice && (id in g.armed || id in w.tally.late)
            && id in w.phase.found && id !in w.round.forgotten
  {
    LaterDiffer(w.phase.found, w.phase.deleted + w.phase.failed);
    hide Remaining, Ascending;
  }

  lemma ForgottenDeleting(g: Goal, w: World)
    requires Covered(g, w) && w.phase.Deleting? && DeletingSound(g, w) && Enabled(w, Forget(false))
    ensures DeletingSound(g, Forgotten(w))
  {
    TargetIsNew(g, w);
    LaterDiffer(w.phase.found, w.phase.deleted + w.phase.failed);
    hide Covered, Ascending;
  }

  lemma ForgottenCovered(g: Goal, w: World)
    requires Covered(g, w) && Enabled(w, Forget(false))
    ensures Covered(g, Forgotten(w))
  {
    hide Ascending, InScope;
  }

  lemma ForgottenBooks(g: Goal, w: World)
    requires Inv(g, w) && Enabled(w, Forget(false))
    ensures Partition(g, Forgotten(w).records, Forgotten(w).tally) && Counts(g, Forgotten(w))
  {
    TargetIsNew(g, w);
    hide Covered, DeletingSound, ReadingSound, Prompt;
    ForgetPartition(g, w.records, w.tally, Target(w));
    hide Partition, Remaining, Target;
  }

  lemma ForgottenPrompt(g: Goal, w: World)
    requires Inv(g, w) && Enabled(w, Forget(false))
    ensures Prompt(g, Forgotten(w))
  {
    TargetIsNew(g, w);
    hide Covered, DeletingSound, ReadingSound, Counts;
    ForgetPartition(g, w.records, w.tally, Target(w));
    assert Target(w) in w.records && Undisturbed(w.tally) ==> Target(w) in Remaining(g, w.records);
    hide Partition, Remaining, Target;
  }

  lemma ForgottenKeeps(g: Goal, w: World)
    requires Inv(g, w) && Enabled(w, Forget(false))
    ensures Inv(g, Forgotten(w))
  {
    ForgottenBooks(g, w);
    ForgottenPrompt(g, w);
    ForgottenCovered(g, w);
    ForgottenDeleting(g, w);
    hide Partition, Counts, Prompt, Covered, DeletingSound, ReadingSound, Remaining;
  }

  lemma PartitionIgnoresCounts(g: Goal, records: map<string, Stored>, t: Tally, lost: nat, worked: nat)
    requires Partition(g, records, t)
    ensures Partition(g, records, t.(lost := lost, worked := worked))
  {}

  lemma WorkedKeeps(g: Goal, w: World)
    requires Inv(g, w)
    ensures Inv(g, Worked(w))
  {
    PartitionIgnoresCounts(g, w.records, w.tally, w.tally.lost, Worked(w).tally.worked);
    hide Partition, Remaining, Ascending, Ahead;
  }

  lemma DroppedKeeps(g: Goal, w: World)
    requires Inv(g, w) && !w.phase.Idle?
    ensures Inv(g, Dropped(w))
  {
    PartitionIgnoresCounts(g, w.records, w.tally, Dropped(w).tally.lost, w.tally.worked);
    hide Partition, Remaining, Ascending, Ahead, ReadingSound, DeletingSound;
  }

  lemma SameSize(a: set<string>, b: set<string>)
    requires a <= b && |a| == |b|
    ensures a == b
  {
    assert b == a + (b - a);
  }

  /** A pass that counts as many deletions as it found records has forgotten all of them. */
  lemma AllForgotten(g: Goal, w: World)
    requires Covered(g, w) && w.phase.Deleting? && DeletingSound(g, w) && w.phase.deleted == |w.phase.found|
    ensures forall id :: id in w.phase.found ==> id in w.round.forgotten && id !in w.records
  {
    var found := w.phase.found;
    DistinctCount(found);
    hide Covered, Ascending;
    assert w.round.forgotten <= Elements(found);
    SameSize(w.round.forgotten, Elements(found));
  }

  /** A pass that has left nothing it did not count has counted everything it found. */
  lemma NothingLeft(g: Goal, w: World)
    requires Covered(g, w) && w.phase.Deleting? && DeletingSound(g, w)
    requires forall id :: id in w.phase.found ==> id in w.round.forgotten
    ensures w.phase.deleted == |w.phase.found|
  {
    var found := w.phase.found;
    DistinctCount(found);
    hide Covered, Ascending;
    assert w.round.forgotten == Elements(found);
  }

  lemma SavedKeeps(g: Goal, w: World)
    requires Inv(g, w) && w.phase.Deleting?
    ensures Inv(g, Saved(w))
  {
    if w.phase.deleted == |w.phase.found| { AllForgotten(g, w); }
    if forall id :: id in w.phase.found ==> id in w.round.forgotten { NothingLeft(g, w); }
    assert forall id :: id in Remaining(g, w.records) ==>
      id in w.records && (id in w.tally.late || id in w.phase.found);
    hide Partition, Remaining, Ascending, ReadingSound, DeletingSound, Covered;
  }

  /** Every step, of the pass and of the traffic around it, keeps the books. */
  lemma StepKeeps(g: Goal, w: World, e: Event)
    requires Inv(g, w) && Enabled(w, e)
    ensures Inv(g, Next(g, w, e))
  {
    hide Inv;
    match e
    case Issue(id, role, minter, at) => TrackedKeeps(g, w, id, Record(role, minter, Stamp(at)));
    case RevokeUpstream(id) => UpstreamKeeps(g, w, id);
    case RemoveRecord(id) => RemovedKeeps(g, w, id);
    case Begin(maxDeletes) => BegunKeeps(g, w, maxDeletes);
    case ReadOne => ReadKeeps(g, w);
    case EndScan => ScannedKeeps(g, w);
    case Ask(answer) => AskedKeeps(g, w, answer);
    case Forget(fails) => if fails { DroppedKeeps(g, w); } else { ForgottenKeeps(g, w); }
    case Save(fails) =>
      WorkedKeeps(g, w);
      if fails { DroppedKeeps(g, Worked(w)); } else { SavedKeeps(g, Worked(w)); }
    case Abort => DroppedKeeps(g, w);
  }

  lemma UpstreamKeeps(g: Goal, w: World, id: string)
    requires Inv(g, w)
    ensures Inv(g, w.(live := w.live - {id}))
  {}

  // ----- whole runs ----------------------------------------------------------------------

  ghost function After(g: Goal, start: World, events: seq<Event>): Option<World> {
    if events == [] then Some(start)
    else
      var before := After(g, start, events[..|events| - 1]);
      var e := events[|events| - 1];
      if before.Some? && Enabled(before.value, e) then Some(Next(g, before.value, e)) else None
  }

  /** A mount on which a purge of `role` has just been armed. `policy` and `budget` are those by which
      working passes are told. */
  ghost function GoalOf(d: Disk, role: string, now: Time, policy: string -> Policy, budget: nat): Goal {
    Goal(role, now, Elements(Scope(d.records, role, now)), policy, budget)
  }

  ghost function ArmedMount(d: Disk, role: string, now: Time): World {
    World(d.records, d.live, ArmedIntent(d, role, now), Idle,
          Tally(d.records.Keys, {}, {}, {}, {}, 0, 0), Round({}, {}, false))
  }

  lemma ArmedRemaining(d: Disk, role: string, now: Time, policy: string -> Policy, budget: nat)
    ensures var g := GoalOf(d, role, now, policy, budget);
            && Remaining(g, d.records) == g.armed && |g.armed| == |Scope(d.records, role, now)|
  {
    ScopeMembers(d, role, now);
    DistinctCount(Scope(d.records, role, now));
    hide Scope, Ascending, InScope;
  }

  lemma ArmedSound(d: Disk, role: string, now: Time, policy: string -> Policy, budget: nat)
    ensures Inv(GoalOf(d, role, now, policy, budget), ArmedMount(d, role, now))
  {
    ArmedRemaining(d, role, now, policy, budget);
    hide Scope, InScope, Ascending;
  }

  lemma {:induction false} RunKeeps(g: Goal, start: World, events: seq<Event>)
    requires Inv(g, start) && After(g, start, events).Some?
    ensures Inv(g, After(g, start, events).value)
  {
    hide Inv, Next, Enabled;
    if events != [] {
      var before := events[..|events| - 1];
      RunKeeps(g, start, before);
      StepKeeps(g, After(g, start, before).value, events[|events| - 1]);
    }
  }

  lemma LeftCount(g: Goal, w: World, d: Disk)
    requires d.records == w.records
    ensures Elements(Scope(d.records, g.role, g.cutoff)) == Remaining(g, w.records)
    ensures |Remaining(g, w.records)| == |Scope(d.records, g.role, g.cutoff)|
  {
    ScopeMembers(d, g.role, g.cutoff);
    DistinctCount(Scope(d.records, g.role, g.cutoff));
    hide Scope, Ascending, InScope;
  }

  lemma DisjointCount(a: set<string>, b: set<string>)
    requires a !! b
    ensures |a + b| == |a| + |b|
  {}

  lemma PartitionCount(g: Goal, w: World)
    requires Inv(g, w)
    ensures |g.armed| + |w.tally.late| == |Remaining(g, w.records)| + |w.tally.purged| + |w.tally.revoked|
  {
    var left, t := Remaining(g, w.records), w.tally;
    hide Counts, Underway, Prompt, InScope;
    assert g.armed + t.late == (left + t.purged) + t.revoked;
    DisjointCount(g.armed, t.late);
    DisjointCount(left, t.purged);
    DisjointCount(left + t.purged, t.revoked);
  }

  /** Accounting. At every point of every run from arming (leases revoked and credentials issued
      between any two steps of a pass, any failures, the node dying anywhere), what the intent says
      was deleted, what the pass under way has deleted, what was deleted and never counted, what
      leases revoked and what is left add up to what was tracked at arming, what came into scope
      since, and what a lease revoked under a pass that counted it too. A purge that says it is
      complete has nothing left that was there at arming. And while no count is lost, nothing
      revoked and nothing tracked late, it is complete exactly when, between passes, nothing is
      left. */
  lemma Accounting(d: Disk, role: string, now: Time, events: seq<Event>, policy: string -> Policy, budget: nat)
    ensures var g := GoalOf(d, role, now, policy, budget);
            var end := After(g, ArmedMount(d, role, now), events);
            end.Some? ==>
              var w, t, left := end.value, end.value.tally, Scope(end.value.records, role, now);
              && w.intent.deleted + Pending(w.phase) + t.lost + |t.revoked| + |left|
                 == |Scope(d.records, role, now)| + |t.late| + |t.twice|
              && t.twice <= t.revoked
              && (w.intent.complete ==> forall id :: id in left ==> id in t.late)
              && (Undisturbed(t) && w.phase.Idle? ==> (w.intent.complete <==> left == []))
  {
    var g := GoalOf(d, role, now, policy, budget);
    var end := After(g, ArmedMount(d, role, now), events);
    if end.Some? {
      ArmedRemaining(d, role, now, policy, budget);
      ArmedSound(d, role, now, policy, budget);
      RunKeeps(g, ArmedMount(d, role, now), events);
      var w := end.value;
      PartitionCount(g, w);
      LeftCount(g, w, Disk(w.records, map[], {}));
      hide After, Scope, Remaining, Underway, ArmedMount;
      assert Scope(w.records, role, now) == [] <==> Remaining(g, w.records) == {};
    }
  }

  lemma StepAt(g: Goal, start: World, events: seq<Event>, n: nat)
    requires n < |events| && After(g, start, events[..n]).Some?
    requires Enabled(After(g, start, events[..n]).value, events[n])
    ensures After(g, start, events[..n + 1]) == Some(Next(g, After(g, start, events[..n]).value, events[n]))
  {
    assert events[..n + 1][..n] == events[..n];
  }

  function OneRecord(): Disk {
    Disk(map["x" := Record("r", "m", 0)], map[], {"x"})
  }

  function Overlapping(): seq<Event> {
    [Begin(1), ReadOne, EndScan, Ask(Allow), RemoveRecord("x"), Forget(false), Save(false)]
  }

  lemma OverlapEvents()
    ensures var events := Overlapping();
            && |events| == 7 && events[..0] == [] && events[..7] == events
            && events[0] == Begin(1) && events[1] == ReadOne && events[2] == EndScan && events[3] == Ask(Allow)
            && events[4] == RemoveRecord("x") && events[5] == Forget(false) && events[6] == Save(false)
  {}

  lemma OverlapReads(g: Goal, now: Time)
    requires g == GoalOf(OneRecord(), "r", now, g.policy, g.budget)
    ensures var start := ArmedMount(OneRecord(), "r", now);
            var end := After(g, start, Overlapping()[..3]);
            && end.Some? && "x" in Remaining(g, start.records)
            && end.value == start.(phase := Deleting(1, ["x"], 0, 0, false, false), round := end.value.round)
  {
    var d, events := OneRecord(), Overlapping();
    var start := ArmedMount(d, "r", now);
    AscendingUnique(SortedKeys(d.records.Keys), ["x"]);
    OverlapEvents();
    assert InScope(d.records["x"], "r", now) && Budget(1) == 1;
    hide SortedKeys, Scope, Budget, Filter, Overlapping;
    StepAt(g, start, events, 0);
    StepAt(g, start, events, 1);
    StepAt(g, start, events, 2);
    hide After;
    assert After(g, start, events[..1]).value.phase == Reading(1, ["x"], 0, []);
    assert After(g, start, events[..2]).value.phase == Reading(1, ["x"], 1, ["x"]);
  }

  lemma OverlapRevokes(g: Goal, w: World)
    requires w.phase == Deleting(1, ["x"], 0, 0, false, false) && "x" in Remaining(g, w.records)
    ensures Enabled(w, Ask(Allow)) && Enabled(Next(g, w, Ask(Allow)), RemoveRecord("x"))
    ensures var after := Next(g, Next(g, w, Ask(Allow)), RemoveRecord("x"));
            && after.phase == Deleting(1, ["x"], 0, 0, true, false) && "x" !in after.records
            && after.tally == w.tally.(revoked := w.tally.revoked + {"x"}) && after.intent == w.intent
  {
    hide InScope;
  }

  lemma OverlapSaves(g: Goal, w: World)
    requires w.phase == Deleting(1, ["x"], 0, 0, true, false) && "x" !in w.records
    ensures Enabled(w, Forget(false)) && Enabled(Next(g, w, Forget(false)), Save(false))
    ensures var after := Next(g, Next(g, w, Forget(false)), Save(false));
            && after.intent.deleted == w.intent.deleted + 1
            && after.tally.purged == w.tally.purged && after.tally.twice == w.tally.twice + {"x"}
  {}

  /** One record in scope, whose lease is revoked between its credential's deletion and its own: the
      pass counts it although it removed nothing. */
  lemma RevokedUnderPassCountsTwice(now: Time, policy: string -> Policy, budget: nat)
    ensures var g := GoalOf(OneRecord(), "r", now, policy, budget);
            var end := After(g, ArmedMount(OneRecord(), "r", now), Overlapping());
            && end.Some?
            && end.value.intent.deleted == 1 && end.value.tally.purged == {} && end.value.tally.twice == {"x"}
  {
    var g, events := GoalOf(OneRecord(), "r", now, policy, budget), Overlapping();
    var start := ArmedMount(OneRecord(), "r", now);
    hide After, Next, Enabled, Remaining, SortedKeys, Scope, Filter, Overlapping, InScope;
    OverlapEvents();
    OverlapReads(g, now);
    var w := After(g, start, events[..3]).value;
    OverlapRevokes(g, w);
    OverlapSaves(g, Next(g, Next(g, w, Ask(Allow)), RemoveRecord("x")));
    StepAt(g, start, events, 3);
    StepAt(g, start, events, 4);
    StepAt(g, start, events, 5);
    StepAt(g, start, events, 6);
  }

  // ----- credentials before records ------------------------------------------------------

  /** The credential of every record a pass removed or found removed is deleted, and so is that of
      the record it is about to remove. */
  ghost predicate CredentialsGone(w: World) {
    && (forall id :: id in w.tally.purged || id in w.tally.twice ==> id !in w.live)
    && (w.phase.Deleting? && w.phase.forgetting && w.phase.deleted + w.phase.failed < |w.phase.found| ==>
          Target(w) !in w.live)
  }

  lemma GoneKeeps(g: Goal, w: World, e: Event)
    requires Inv(g, w) && CredentialsGone(w) && Enabled(w, e)
    ensures CredentialsGone(Next(g, w, e))
  {
    hide InScope, Remaining, SortedKeys, Ascending;
  }

  lemma {:induction false} RunGone(g: Goal, start: World, events: seq<Event>)
    requires Inv(g, start) && CredentialsGone(start) && After(g, start, events).Some?
    ensures CredentialsGone(After(g, start, events).value)
  {
    if events != [] {
      var before := events[..|events| - 1];
      RunGone(g, start, before);
      RunKeeps(g, start, before);
      GoneKeeps(g, After(g, start, before).value, events[|events| - 1]);
    }
  }

  /** At every point of every run a pass has removed only records in scope, and whatever left the
      scope has its credential deleted, unless a lease removed the record: wherever a node dies,
      no purge loses track of a credential that still works. */
  lemma CrashSafeSteps(d: Disk, role: string, now: Time, events: seq<Event>, policy: string -> Policy, budget: nat)
    ensures var g := GoalOf(d, role, now, policy, budget);
            var end := After(g, ArmedMount(d, role, now), events);
            end.Some? ==>
              var w, t := end.value, end.value.tally;
              && CredentialsGone(w)
              && (forall id :: id in t.purged ==> id in Scope(d.records, role, now) || id in t.late)
              && (forall id :: id in Scope(d.records, role, now) || id in t.late ==>
                    id in w.records || id in t.revoked || id !in w.live)
  {
    var g := GoalOf(d, role, now, policy, budget);
    var end := After(g, ArmedMount(d, role, now), events);
    if end.Some? {
      ArmedSound(d, role, now, policy, budget);
      RunKeeps(g, ArmedMount(d, role, now), events);
      RunGone(g, ArmedMount(d, role, now), events);
      hide After, Scope, ArmedMount, InScope, Ascending, Underway, Prompt, Counts;
    }
  }

  // ----- how far working passes get ------------------------------------------------------

  function Deletable(g: Goal, ids: set<string>): set<string> {
    set id | id in ids && g.policy(id).Allow?
  }

  lemma DeletableCount(g: Goal, s: seq<string>)
    requires Ascending(s)
    ensures Count(Allowed(g.policy), s) == |Deletable(g, Elements(s))|
  {
    FilterMembers(Allowed(g.policy), s);
    hide LexLe;
    FilterDistinct(Allowed(g.policy), s);
    DistinctCount(Filter(Allowed(g.policy), s));
    assert Elements(Filter(Allowed(g.policy), s)) == Deletable(g, Elements(s));
  }

  /** What of its scan a pass may leave: everything past its budget, and what is refused. */
  lemma {:induction false} LeftKeeps(scan: seq<string>, budget: int, policy: string -> Policy, i: nat)
    requires i < |scan| && (i >= budget || !policy(scan[i]).Allow?)
    ensures scan[i] in Left(scan, budget, policy)
    decreases |scan|
  {
    if budget > 0 && i > 0 { LeftKeeps(scan[1..], budget - 1, policy, i - 1); }
  }

  lemma {:induction false} LeftAscends(scan: seq<string>, budget: int, policy: string -> Policy)
    requires Ascending(scan)
    ensures Ascending(Left(scan, budget, policy)) && forall id :: id in Left(scan, budget, policy) ==> id in scan
    decreases |scan|
  {
    if scan != [] && budget > 0 {
      var rest := Left(scan[1..], budget - 1, policy);
      LeftAscends(scan[1..], budget - 1, policy);
      forall j | 0 <= j < |rest| ensures LexLess(scan[0], rest[j]) && rest[j] in scan {
        assert rest[j] in rest;
        var k :| 0 <= k < |scan[1..]| && scan[1..][k] == rest[j];
        assert scan[k + 1] == rest[j];
      }
      hide LexLe;
      assert scan[0] in scan;
    }
  }

  /** `scope` holds all that was ever in scope, and blocks nothing in it. */
  ghost predicate Reaching(g: Goal, w: World, scope: seq<string>) {
    && Ascending(scope) && g.armed + w.tally.late <= Elements(scope)
    && Unthrottled(g.policy) && Reachable(scope, g.budget, g.policy)
  }

  /** What a pass found is reachable too: it is part of what was ever in scope. */
  lemma FoundReachable(g: Goal, scope: seq<string>, found: seq<string>, budget: int)
    requires Ascending(scope) && Ascending(found) && Unthrottled(g.policy) && Reachable(scope, g.budget, g.policy)
    requires (forall id :: id in found ==> id in scope) && budget >= g.budget
    ensures Reachable(found, budget, g.policy)
  {
    hide Reachable, LexLe, Ascending;
    var within := (id: string) => id in found;
    FilterMembers(within, scope);
    FilterAscending(within, scope);
    AscendingUnique(found, Filter(within, scope));
    FilterReachable(within, scope, g.budget, g.policy);
    ReachableMore(found, g.budget, budget, g.policy);
  }

  /** What is left of what a working pass found, when it has run to its end, lies in what such a
      pass leaves. */
  lemma WorkedLeaves(g: Goal, w: World)
    requires w.phase.Deleting? && DeletingSound(g, w) && Over(w.phase) && w.round.faithful
    ensures forall id :: id in Remaining(g, w.records) && id in w.phase.found ==>
              id in Left(w.phase.found, w.phase.budget, g.policy)
  {
    var p := w.phase;
    forall id | id in Remaining(g, w.records) && id in p.found ensures id in Left(p.found, p.budget, g.policy) {
      var i :| 0 <= i < |p.found| && p.found[i] == id;
      LeftKeeps(p.found, p.budget, g.policy, i);
    }
  }

  lemma FewerMisses(g: Goal, few: set<string>, many: set<string>) returns (id: string)
    requires |Deletable(g, few)| < |Deletable(g, many)|
    ensures id in Deletable(g, many) && id !in few
  {
    if forall x :: x in Deletable(g, many) ==> x in few {
      SubsetCount(Deletable(g, many), Deletable(g, few));
    }
    id :| id in Deletable(g, many) && id !in few;
  }

  lemma WithoutOne(g: Goal, left: set<string>, scope: set<string>, id: string)
    requires left <= scope && id in Deletable(g, scope) && id !in left
    ensures |Deletable(g, left)| < |Deletable(g, scope)|
  {
    SubsetCount(Deletable(g, left), Deletable(g, scope) - {id});
  }

  /** A working pass that leaves something deletable from arming has deleted something deletable. */
  lemma WorkedProgress(g: Goal, w: World, scope: seq<string>)
    requires Partition(g, w.records, w.tally) && Covered(g, w) && Reaching(g, w, scope)
    requires w.phase.Deleting? && DeletingSound(g, w) && Over(w.phase) && w.round.faithful
    ensures var left := Remaining(g, w.records);
            Deletable(g, left * g.armed) == {} || |Deletable(g, left)| < |Deletable(g, w.round.began + left)|
  {
    var p := w.phase;
    var left, rest := Remaining(g, w.records), Left(p.found, p.budget, g.policy);
    if id :| id in Deletable(g, left * g.armed) {
      assert id in Ahead(p) && id in Deletable(g, Elements(p.found));
      WorkedLeaves(g, w);
      FoundReachable(g, scope, p.found, p.budget);
      LeftAscends(p.found, p.budget, g.policy);
      DeletableCount(g, p.found);
      DeletableCount(g, rest);
      hide Ascending, Reachable, Remaining, Left, Covered, Partition;
      ReachableProgress(p.found, p.budget, g.policy);
      var gone := FewerMisses(g, Elements(rest), Elements(p.found));
      WithoutOne(g, left, w.round.began + left, gone);
    }
  }

  /** Every working pass so far has taken something deletable out of what was ever in scope, or
      nothing deletable from arming is left. */
  ghost predicate Paced(g: Goal, left: set<string>, scope: set<string>, late: set<string>, worked: nat) {
    Deletable(g, left * g.armed) == {} || |Deletable(g, scope)| + worked <= |Deletable(g, g.armed + late)|
  }

  /** All that was in scope since the pass under way began. */
  ghost function Since(g: Goal, w: World): set<string> {
    if w.phase.Idle? then Remaining(g, w.records) else w.round.began + Remaining(g, w.records)
  }

  ghost predicate OnTrack(g: Goal, w: World) {
    Paced(g, Remaining(g, w.records), Since(g, w), w.tally.late, w.tally.worked)
  }

  lemma PacedSmaller(g: Goal, left: set<string>, scope: set<string>, left': set<string>, scope': set<string>,
                     late: set<string>, worked: nat)
    requires Paced(g, left, scope, late, worked) && left' <= left && scope' <= scope
    ensures Paced(g, left', scope', late, worked)
  {
    assert Deletable(g, left' * g.armed) <= Deletable(g, left * g.armed);
    SubsetCount(Deletable(g, scope'), Deletable(g, scope));
  }

  lemma OneMore(g: Goal, s: set<string>, id: string)
    ensures var more := |Deletable(g, s + {id})| - |Deletable(g, s)|;
            && 0 <= more && (more > 0 ==> g.policy(id).Allow? && more == 1)
            && (id !in s && g.policy(id).Allow? ==> more == 1)
  {
    if id in s {
      assert s + {id} == s;
    } else if g.policy(id).Allow? {
      assert Deletable(g, s + {id}) == Deletable(g, s) + {id};
    } else {
      assert Deletable(g, s + {id}) == Deletable(g, s);
    }
  }

  lemma PacedLate(g: Goal, left: set<string>, scope: set<string>, late: set<string>, worked: nat, id: string)
    requires Paced(g, left, scope, late, worked) && id !in g.armed + late
    ensures Paced(g, left + {id}, scope + {id}, late + {id}, worked)
  {
    assert (left + {id}) * g.armed == left * g.armed;
    assert g.armed + (late + {id}) == (g.armed + late) + {id};
    OneMore(g, g.armed + late, id);
    OneMore(g, scope, id);
    hide Deletable;
  }

  lemma IssueStaysOnTrack(g: Goal, w: World, id: string, record: Stored)
    requires Partition(g, w.records, w.tally) && OnTrack(g, w) && id !in w.tally.used
    ensures OnTrack(g, Tracked(g, w, id, record))
  {
    var left := Remaining(g, w.records);
    IssuePartition(g, w.records, w.tally, id, record);
    if InScope(record, g.role, g.cutoff) {
      PacedLate(g, left, Since(g, w), w.tally.late, w.tally.worked, id);
      assert Since(g, Tracked(g, w, id, record)) == Since(g, w) + {id} by { hide Remaining, InScope; }
    } else {
      assert Since(g, Tracked(g, w, id, record)) == Since(g, w) by { hide Remaining, InScope; }
    }
  }

  predicate EndsWell(w: World, e: Event) {
    e.Save? && w.round.faithful
  }

  /** Nothing but issuance adds to the scope. */
  lemma ScopeShrinks(g: Goal, w: World, e: Event)
    requires Enabled(w, e) && !e.Issue?
    ensures Remaining(g, Next(g, w, e).records) <= Remaining(g, w.records)
    ensures Since(g, Next(g, w, e)) <= if EndsWell(w, e) then Remaining(g, w.records) else Since(g, w)
    ensures Next(g, w, e).tally.late == w.tally.late
    ensures Next(g, w, e).tally.worked == w.tally.worked + if EndsWell(w, e) then 1 else 0
  {
    hide InScope, SortedKeys, Budget;
  }

  lemma StaysOnTrack(g: Goal, w: World, e: Event, scope: seq<string>)
    requires Inv(g, w) && OnTrack(g, w) && Enabled(w, e) && Reaching(g, w, scope)
    ensures OnTrack(g, Next(g, w, e))
  {
    if e.Issue? {
      IssueStaysOnTrack(g, w, e.id, Record(e.role, e.minter, Stamp(e.at)));
    } else {
      var w' := Next(g, w, e);
      var left, left' := Remaining(g, w.records), Remaining(g, w'.records);
      var since, late, worked := Since(g, w), w.tally.late, w'.tally.worked;
      ScopeShrinks(g, w, e);
      if EndsWell(w, e) {
        since := left;
        WorkedProgress(g, w, scope);
      }
      hide Remaining, Deletable, Reaching, Inv, Next, Since, Enabled;
      assert Paced(g, left, since, late, worked);
      PacedSmaller(g, left, since, left', Since(g, w'), late, worked);
    }
  }

  lemma ReachingBefore(g: Goal, w: World, e: Event, scope: seq<string>)
    requires Enabled(w, e) && Reaching(g, Next(g, w, e), scope)
    ensures Reaching(g, w, scope)
  {
    hide Reachable, Ascending, SortedKeys, Budget, Remaining, InScope;
    assert w.tally.late <= Next(g, w, e).tally.late;
  }

  lemma {:induction false} RunStaysOnTrack(g: Goal, start: World, events: seq<Event>, scope: seq<string>)
    requires Inv(g, start) && OnTrack(g, start)
    requires After(g, start, events).Some? && Reaching(g, After(g, start, events).value, scope)
    ensures OnTrack(g, After(g, start, events).value)
  {
    if events != [] {
      var before, e := events[..|events| - 1], events[|events| - 1];
      var w := After(g, start, before).value;
      RunKeeps(g, start, before);
      ReachingBefore(g, w, e, scope);
      hide Inv, Next, Enabled, OnTrack, Reaching;
      RunStaysOnTrack(g, start, before, scope);
      StaysOnTrack(g, w, e, scope);
    }
  }

  lemma OnTrackFinishes(g: Goal, w: World, ever: seq<string>)
    requires Inv(g, w) && OnTrack(g, w) && Ascending(ever) && Elements(ever) == g.armed + w.tally.late
    requires w.tally.worked >= Count(Allowed(g.policy), ever)
    ensures forall id :: id in Remaining(g, w.records) && g.policy(id).Allow? ==> id in w.tally.late
  {
    var left := Remaining(g, w.records);
    DeletableCount(g, ever);
    assert Partition(g, w.records, w.tally);
    assert Deletable(g, left * g.armed) <= Deletable(g, Since(g, w));
    hide Inv, Ascending, Remaining;
    assert Deletable(g, left * g.armed) == {};
    forall id | id in left && g.policy(id).Allow? ensures id in w.tally.late {
      assert id !in Deletable(g, left * g.armed);
    }
  }

  lemma ArmedOnTrack(d: Disk, role: string, now: Time, policy: string -> Policy, budget: nat)
    ensures OnTrack(GoalOf(d, role, now, policy, budget), ArmedMount(d, role, now))
  {
    var g := GoalOf(d, role, now, policy, budget);
    ArmedRemaining(d, role, now, policy, budget);
    assert g.armed + {} == g.armed;
    hide Remaining, Scope;
  }

  /** A purge finishes while its role goes on issuing, step by step. In every run (credentials issued
      and leases revoked in scope between any two steps, passes that fail, are throttled, meet other
      answers or die, counts that are lost) as many working passes as records were deletable, of
      those at arming and those tracked late, leave nothing deletable that was there at arming, when
      no deletable one of them has a budget's worth of refused ones ahead of it. */
  lemma PurgeFinishes(d: Disk, role: string, now: Time, events: seq<Event>, policy: string -> Policy, budget: nat)
    requires Unthrottled(policy)
    ensures var g := GoalOf(d, role, now, policy, budget);
            var end := After(g, ArmedMount(d, role, now), events);
            end.Some? ==>
              var w, t := end.value, end.value.tally;
              var ever := SortedKeys(Elements(Scope(d.records, role, now)) + t.late);
              Reachable(ever, budget, policy) && t.worked >= Count(Allowed(policy), ever) ==>
                forall id :: id in Scope(w.records, role, now) && policy(id).Allow? ==> id in t.late
  {
    hide Scope, After, ArmedMount, Reachable, Ascending, Remaining, Inv, SortedKeys, OnTrack, Count, Unthrottled;
    var g := GoalOf(d, role, now, policy, budget);
    var end := After(g, ArmedMount(d, role, now), events);
    if end.Some? {
      var w, t := end.value, end.value.tally;
      var ever := SortedKeys(Elements(Scope(d.records, role, now)) + t.late);
      if Reachable(ever, budget, policy) && t.worked >= Count(Allowed(policy), ever) {
        assert Elements(ever) == g.armed + t.late;
        ArmedSound(d, role, now, policy, budget);
        ArmedOnTrack(d, role, now, policy, budget);
        RunStaysOnTrack(g, ArmedMount(d, role, now), events, ever);
        RunKeeps(g, ArmedMount(d, role, now), events);
        OnTrackFinishes(g, w, ever);
        LeftCount(g, w, Disk(w.records, map[], {}));
      }
    }
  }

  // ----- a pass with nothing in between --------------------------------------------------

  lemma Then(g: Goal, start: World, events: seq<Event>, w: World, e: Event)
    requires After(g, start, events) == Some(w) && Enabled(w, e)
    ensures After(g, start, events + [e]) == Some(Next(g, w, e))
  {
    assert (events + [e])[..|events + [e]| - 1] == events;
  }

  /** Listing and reading with nothing in between finds the scope. */
  lemma ScanAlone(g: Goal, start: World, before: seq<Event>, w: World, maxDeletes: int)
    returns (events: seq<Event>, after: World)
    requires After(g, start, before) == Some(w) && Enabled(w, Begin(maxDeletes))
    ensures After(g, start, events) == Some(after)
    ensures after == w.(round := after.round,
                        phase := Deleting(Budget(maxDeletes), Scope(w.records, g.role, g.cutoff), 0, 0, false, false))
  {
    hide After, SortedKeys, Budget, InScope;
    var listed, p := SortedKeys(w.records.Keys), ScopeOf(w.records, g.role, g.cutoff);
    Then(g, start, before, w, Begin(maxDeletes));
    events, after := before + [Begin(maxDeletes)], Begun(g, w, maxDeletes);
    var j := 0;
    while j < |listed|
      invariant 0 <= j <= |listed| && After(g, start, events) == Some(after)
      invariant after == w.(round := after.round, phase :=
                                Reading(Budget(maxDeletes), listed, j, Filter(p, listed[..j])))
    {
      FilterNext(p, listed, j);
      assert p(listed[j]) <==> listed[j] in Remaining(g, w.records);
      assert Filter(p, listed[..j]) + [] == Filter(p, listed[..j]);
      Then(g, start, events, after, ReadOne);
      events, after, j := events + [ReadOne], ReadNext(g, after), j + 1;
    }
    assert listed[..j] == listed;
    Then(g, start, events, after, EndScan);
    events, after := events + [EndScan], Scanned(after);
  }

  /** A pass that has deleted `done` and met refusals for `refused`, and nothing in between. */
  function Deleted(w: World, done: seq<string>, refused: seq<string>, scan: seq<string>, budget: nat,
                   forgetting: bool, throttled: bool, round: Round, tally: Tally): World
  {
    World(w.records - Elements(done), w.live - Elements(done), w.intent,
          Deleting(budget, scan, |done|, |refused|, forgetting, throttled), tally, round)
  }

  lemma ElementsSnoc(done: seq<string>, id: string)
    ensures Elements(done + [id]) == Elements(done) + {id}
  {}

  /** One record of such a pass: asked for and, if allowed, forgotten. */
  lemma RecordAlone(g: Goal, start: World, before: seq<Event>, w: World, at: World, done: seq<string>,
                    refused: seq<string>, scan: seq<string>, budget: nat, answer: Policy)
    returns (events: seq<Event>, after: World)
    requires After(g, start, before) == Some(at) && |done| + |refused| < |scan| && |done| + |refused| < budget
    requires at == Deleted(w, done, refused, scan, budget, false, false, at.round, at.tally)
    ensures After(g, start, events) == Some(after)
    ensures var id := scan[|done| + |refused|];
            after == match answer
                     case Throttle => Deleted(w, done, refused, scan, budget, false, true, after.round, after.tally)
                     case Refuse => Deleted(w, done, refused + [id], scan, budget, false, false,
                                     after.round, after.tally)
                     case Allow => Deleted(w, done + [id], refused, scan, budget, false, false,
                                     after.round, after.tally)
  {
    hide After;
    var id := scan[|done| + |refused|];
    Then(g, start, before, at, Ask(answer));
    events, after := before + [Ask(answer)], Asked(g, at, answer);
    if answer.Allow? {
      Then(g, start, events, after, Forget(false));
      events, after := events + [Forget(false)], Forgotten(after);
      ElementsSnoc(done, id);
      assert w.records - Elements(done) - {id} == w.records - (Elements(done) + {id});
      assert w.live - Elements(done) - {id} == w.live - (Elements(done) + {id});
    }
  }

  /** What a pass makes of the records, the credentials and the intent when nothing comes between
      its steps. */
  ghost predicate EndsAs(w: World, after: World, out: PassOut, saved: bool, found: nat) {
    && after.phase.Idle?
    && after.records == w.records - Elements(out.deleted)
    && after.live == w.live - Elements(out.deleted) - Elements(out.stranded)
    && after.intent == if out.stranded != [] || !saved then w.intent
                       else w.intent.(deleted := w.intent.deleted + |out.deleted|, failed := |out.failed|,
                                      complete := found == |out.deleted|)
  }

  /** The end of such a pass whose deletions all worked. */
  lemma SaveAlone(g: Goal, start: World, before: seq<Event>, w: World, at: World, out: PassOut, scan: seq<string>,
                  budget: nat, saveFails: bool)
    returns (events: seq<Event>, after: World)
    requires After(g, start, before) == Some(at) && out.stranded == []
    requires at == Deleted(w, out.deleted, out.failed, scan, budget, false, out.throttled, at.round, at.tally)
    requires out.throttled || |out.deleted| + |out.failed| >= |scan| || |out.deleted| + |out.failed| >= budget
    ensures After(g, start, events) == Some(after) && EndsAs(w, after, out, !saveFails, |scan|)
  {
    hide After;
    Then(g, start, before, at, Save(saveFails));
    events, after := before + [Save(saveFails)], Next(g, at, Save(saveFails));
    assert Elements(out.stranded) == {};
  }

  /** The end of such a pass at a record that could not be deleted. */
  lemma StrandAlone(g: Goal, start: World, before: seq<Event>, w: World, at: World, out: PassOut, scan: seq<string>,
                    budget: nat, saveFails: bool)
    returns (events: seq<Event>, after: World)
    requires After(g, start, before) == Some(at)
    requires at == Deleted(w, out.deleted, out.failed, scan, budget, false, false, at.round, at.tally)
    requires |out.deleted| + |out.failed| < |scan| && |out.deleted| + |out.failed| < budget
    requires out.stranded == [scan[|out.deleted| + |out.failed|]]
    ensures After(g, start, events) == Some(after) && EndsAs(w, after, out, !saveFails, |scan|)
  {
    hide After;
    Then(g, start, before, at, Ask(Allow));
    events, after := before + [Ask(Allow)], Asked(g, at, Allow);
    Then(g, start, events, after, Forget(true));
    events, after := events + [Forget(true)], Dropped(after);
    assert Elements(out.stranded) == {out.stranded[0]};
  }

  lemma DeleteAlone(g: Goal, start: World, before: seq<Event>, w: World, at: World, all: PassOut, scan: seq<string>,
                    budget: nat, policy: string -> Policy, keeps: set<string>, saveFails: bool, done: seq<string>,
                    refused: seq<string>)
    returns (events: seq<Event>, after: World)
    requires After(g, start, before) == Some(at)
    requires at == Deleted(w, done, refused, scan, budget, false, false, at.round, at.tally)
    requires Midway(all, scan, |done| + |refused|, budget, policy, keeps, done, refused)
    ensures After(g, start, events) == Some(after) && EndsAs(w, after, all, !saveFails, |scan|)
    decreases |scan| - |done| - |refused|
  {
    hide After, EndsAs, Midway, Deleted;
    var i := |done| + |refused|;
    MidwayWithin(all, scan, i, budget, policy, keeps, done, refused);
    if i >= |scan| || i >= budget {
      MidwayEnds(all, scan, i, budget, policy, keeps, done, refused);
      events, after := SaveAlone(g, start, before, w, at, all, scan, budget, saveFails);
      return;
    }
    var id := scan[i];
    MidwayNext(all, scan, i, budget, policy, keeps, done, refused);
    if policy(id).Allow? && id in keeps {
      events, after := StrandAlone(g, start, before, w, at, all, scan, budget, saveFails);
      return;
    }
    events, after := RecordAlone(g, start, before, w, at, done, refused, scan, budget, policy(id));
    match policy(id)
    case Throttle => events, after := SaveAlone(g, start, events, w, after, all, scan, budget, saveFails);
    case Refuse =>
      events, after := DeleteAlone(g, start, events, w, after, all, scan, budget, policy, keeps, saveFails, done,
                                   refused + [id]);
    case Allow =>
      events, after := DeleteAlone(g, start, events, w, after, all, scan, budget, policy, keeps, saveFails,
                                   done + [id], refused);
  }

  lemma MidwayWithin(all: PassOut, scan: seq<string>, i: nat, budget: nat, policy: string -> Policy,
                     keeps: set<string>, done: seq<string>, refused: seq<string>)
    requires Midway(all, scan, i, budget, policy, keeps, done, refused)
    ensures i <= |scan|
  {}

  lemma PassAlone(g: Goal, start: World, before: seq<Event>, w: World, maxDeletes: int, policy: string -> Policy,
                  keeps: set<string>, saveFails: bool)
    returns (events: seq<Event>, after: World)
    requires After(g, start, before) == Some(w) && Enabled(w, Begin(maxDeletes))
    ensures After(g, start, events) == Some(after)
    ensures var scan := Scope(w.records, g.role, g.cutoff);
            EndsAs(w, after, PassOver(scan, Budget(maxDeletes), policy, keeps), !saveFails, |scan|)
  {
    hide After, Scope, Budget, EndsAs, Midway, PassOver, Deleted;
    var scan, budget := Scope(w.records, g.role, g.cutoff), Budget(maxDeletes);
    var all := PassOver(scan, budget, policy, keeps);
    events, after := ScanAlone(g, start, before, w, maxDeletes);
    NothingDeleted(w, after, scan, budget);
    MidwayStarts(all, scan, budget, policy, keeps);
    events, after := DeleteAlone(g, start, events, w, after, all, scan, budget, policy, keeps, saveFails, [], []);
  }

  lemma NothingDeleted(w: World, at: World, scan: seq<string>, budget: nat)
    requires at == w.(round := at.round, phase := Deleting(budget, scan, 0, 0, false, false))
    ensures at == Deleted(w, [], [], scan, budget, false, false, at.round, at.tally)
  {
    assert Elements<string>([]) == {} && w.records - {} == w.records && w.live - {} == w.live;
  }

  lemma MidwayStarts(all: PassOut, scan: seq<string>, budget: nat, policy: string -> Policy, keeps: set<string>)
    requires all == PassOver(scan, budget, policy, keeps)
    ensures Midway(all, scan, 0, budget, policy, keeps, [], [])
  {
    assert scan[0..] == scan;
  }

  /** With nothing in between, a pass step by step is the pass that `Purge.Mount.Advance` runs,
      whatever the cloud answers and whichever record or intent storage refuses. */
  lemma AloneIsAdvance(g: Goal, start: World, before: seq<Event>, w: World, maxDeletes: int, policy: string -> Policy,
                       faults: Faults)
    returns (events: seq<Event>, after: World)
    requires After(g, start, before) == Some(w) && Enabled(w, Begin(maxDeletes)) && !faults.scan
    requires w.intent.role == g.role && w.intent.cutoff == g.cutoff
    ensures After(g, start, events) == Some(after)
    ensures var d := Disk(w.records, map[g.role := w.intent], w.live);
            var end := Replay(d, AdvanceEffects(d, w.intent, maxDeletes, policy, faults));
            && after.phase.Idle? && after.records == end.records && after.live == end.live
            && g.role in end.intents && after.intent == end.intents[g.role]
  {
    var d := Disk(w.records, map[g.role := w.intent], w.live);
    AdvanceReplay(d, w.intent, maxDeletes, policy, faults);
    events, after := PassAlone(g, start, before, w, maxDeletes, policy, faults.keeps, faults.save);
  }
}
