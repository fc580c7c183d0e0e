/** One minter set over whole runs: writes, rotations that choose a retirement time before they
    persist it, sweeps that delete upstream before they drop, and nodes that select from snapshots
    loaded some time ago. Writes are serialised with rotations and sweeps. */
module MinterLifecycle {
  import opened Common
  import opened Order
  import opened MinterSets

  /** `staleness` bounds how long ago a node that selects last read the stored set, `rotation` the
      time from choosing a retirement time to persisting it. With `reuse`, a write may list an id
      that the set once had and has no longer. */
  datatype Settings = Settings(staleness: nat, rotation: nat, grace: nat, nodes: nat, reuse: bool)

  /** What a node selects from, when it took that over, and when it last read the stored set. */
  datatype Node = Node(view: seq<Minter>, loadedAt: Time, triedAt: Time)

  /** A rotation under way: which minter, and when it is to count as retired. */
  datatype Pending = Pending(index: nat, retiredAt: Time)

  /** History: when a minter counts as retired, and when that was persisted. */
  datatype Retirement = Retirement(retiredAt: Time, persistedAt: Time)

  /** `gone` are the minters whose upstream credential a sweep has deleted, `used` every id that
      was ever stored. */
  datatype World = World(clock: Time, stored: seq<Minter>, pending: Option<Pending>, nodes: seq<Node>,
    gone: set<string>, used: set<string>, retirements: map<string, Retirement>)

  datatype Step =
    | Tick(elapsed: nat)
    | Write(n: nat, incoming: seq<Minter>)
    | StartRotation(index: nat)
    | AbortRotation
    | CommitRotation(n: nat, successor: Minter, madeAt: Time)
    | SweepDelete(index: nat, now: Time)
    | SweepDrop(n: nat, now: Time, undeletable: set<string>)
    | Load(n: nat)
    | Rebuild(n: nat)
    | Select(n: nat, id: string)

  ghost function Init(s: Settings): World {
    World(1, [], None, seq(s.nodes, _ => Node([], 0, 0)), {}, {}, map[])
  }

  /** The stand-in a rotation is checked with. */
  function StandIn(m: Minter, now: Time): Minter {
    Minter(m.id + "-rot-pending", "", if m.neverExpires then 0 else now + MINTER_SECRET_LIFETIME, m.neverExpires,
           0, false, 0, map[])
  }

  ghost predicate Enabled(s: Settings, w: World, step: Step) {
    match step
    case Tick(_) => true
    case Write(n, incoming) =>
      && n < |w.nodes| && w.pending.None?
      && (forall m :: m in incoming ==> !m.retired)
      && Distinct(Ids(incoming)) && ValidSet(Preserved(incoming, w.stored, w.clock))
      && (s.reuse || forall id :: id in Ids(incoming) ==> id in Ids(w.stored) || id !in w.used)
    case StartRotation(i) =>
      && w.pending.None? && i < |w.stored| && !w.stored[i].retired
      && ValidSet(Rotated(w.stored, i, w.clock, StandIn(w.stored[i], w.clock)))
    case AbortRotation => true
    case CommitRotation(n, successor, madeAt) =>
      && n < |w.nodes| && w.pending.Some? && w.pending.value.index < |w.stored|
      && w.clock <= w.pending.value.retiredAt + s.rotation
      && w.pending.value.retiredAt <= madeAt <= w.clock
      && Succeeds(successor, w.stored[w.pending.value.index], madeAt) && successor.id !in w.used
    case SweepDelete(i, now) =>
      && w.pending.None? && i < |w.stored| && now <= w.clock && Aged(w.stored[i], now, s.grace)
      && CLIENT_ID in w.stored[i].rotationParams && w.stored[i].rotationParams[CLIENT_ID] != ""
    case SweepDrop(n, now, undeletable) =>
      // A minter whose own client cannot be built is dropped with its credential left upstream.
      n < |w.nodes| && w.pending.None? && now <= w.clock
    case Load(n) => n < |w.nodes|
    case Rebuild(n) => n < |w.nodes|
    case Select(n, id) =>
      && n < |w.nodes| && w.clock <= w.nodes[n].triedAt + s.staleness
      && exists m :: m in w.nodes[n].view && m.id == id && !m.retired
  }

  function Refreshed(w: World, n: nat, stored: seq<Minter>): World
    requires n < |w.nodes|
  {
    w.(stored := stored, nodes := w.nodes[n := Node(stored, w.clock, w.clock)])
  }

  ghost function Next(s: Settings, w: World, step: Step): World
    requires Enabled(s, w, step)
  {
    match step
    case Tick(elapsed) => w.(clock := w.clock + elapsed)
    case Write(n, incoming) =>
      Refreshed(w, n, Preserved(incoming, w.stored, w.clock)).(used := w.used + Elements(Ids(incoming)))
    case StartRotation(i) => w.(pending := Some(Pending(i, w.clock)))
    case AbortRotation => w.(pending := None)
    case CommitRotation(n, successor, _) =>
      var i, retiredAt := w.pending.value.index, w.pending.value.retiredAt;
      Refreshed(w, n, Rotated(w.stored, i, retiredAt, successor)).(
        pending := None, used := w.used + {successor.id},
        retirements := w.retirements[w.stored[i].id := Retirement(retiredAt, w.clock)])
    case SweepDelete(i, _) => w.(gone := w.gone + {w.stored[i].id})
    case SweepDrop(n, now, undeletable) => Refreshed(w, n, Filter(Kept(now, s.grace, undeletable), w.stored))
    case Rebuild(n) =>
      // A backend built anew starts with nothing, and registers no invalid set either.
      w.(nodes := w.nodes[n := Node(if ValidSet(w.stored) then w.stored else [], w.clock, w.clock)])
    case Load(n) =>
      // An invalid set is not registered: the node keeps the snapshot it has.
      if w.stored != [] && ValidSet(w.stored) then Refreshed(w, n, w.stored)
      else w.(nodes := w.nodes[n := w.nodes[n].(triedAt := w.clock)])
    case Select(_, _) => w
  }

  ghost function After(s: Settings, steps: seq<Step>): Option<World> {
    if steps == [] then Some(Init(s))
    else
      var before := After(s, steps[..|steps| - 1]);
      var step := steps[|steps| - 1];
      if before.Some? && Enabled(s, before.value, step) then Some(Next(s, before.value, step)) else None
  }

  // ----- the invariant -------------------------------------------------------------------

  /** The flag and the time of a stored minter are those of its retirement. */
  ghost predicate MinterSound(w: World, m: Minter) {
    && m.id in w.used
    && (m.retired <==> m.id in w.retirements)
    && (m.retired ==> m.retiredAt == w.retirements[m.id].retiredAt)
  }

  ghost predicate StoredSound(w: World) {
    Distinct(Ids(w.stored)) && forall i :: 0 <= i < |w.stored| ==> MinterSound(w, w.stored[i])
  }

  ghost predicate RetirementsSound(s: Settings, w: World) {
    forall id :: id in w.retirements ==>
      id in w.used && w.retirements[id].persistedAt <= w.clock
      && w.retirements[id].persistedAt <= w.retirements[id].retiredAt + s.rotation
  }

  ghost predicate GoneSound(s: Settings, w: World) {
    forall id :: id in w.gone ==> id in w.retirements && w.clock > w.retirements[id].retiredAt + s.grace
  }

  ghost predicate PendingSound(w: World) {
    w.pending.Some? ==>
      var p := w.pending.value;
      && p.index < |w.stored| && !w.stored[p.index].retired && p.retiredAt <= w.clock
      && ValidSet(Rotated(w.stored, p.index, p.retiredAt, StandIn(w.stored[p.index], p.retiredAt)))
  }

  /** A snapshot that still offers a retired minter was loaded before the retirement was persisted. */
  ghost predicate NodeSound(w: World, node: Node) {
    && node.loadedAt <= w.clock
    && forall m :: m in node.view && !m.retired && m.id in w.retirements ==>
         node.loadedAt <= w.retirements[m.id].persistedAt
  }

  ghost predicate NodesSound(w: World) {
    forall n :: 0 <= n < |w.nodes| ==> NodeSound(w, w.nodes[n])
  }

  ghost predicate Inv(s: Settings, w: World) {
    && StoredSound(w) && RetirementsSound(s, w) && GoneSound(s, w) && PendingSound(w) && NodesSound(w)
    && |w.nodes| == s.nodes
  }

  lemma FreshView(w: World, n: nat, stored: seq<Minter>)
    requires n < |w.nodes| && NodesSound(w)
    requires forall i :: 0 <= i < |stored| ==> MinterSound(w, stored[i])
    ensures NodesSound(Refreshed(w, n, stored))
  {
    hide Distinct;
    forall m | m in stored && !m.retired ensures m.id !in w.retirements {
      var i :| 0 <= i < |stored| && stored[i] == m;
      assert MinterSound(w, stored[i]);
    }
  }

  lemma WriteKeeps(s: Settings, w: World, step: Step)
    requires Inv(s, w) && Enabled(s, w, step) && step.Write? && !s.reuse
    ensures Inv(s, Next(s, w, step))
  {
    hide ValidSet, Rotated;
    var stored := Preserved(step.incoming, w.stored, w.clock);
    var w1 := w.(used := w.used + Elements(Ids(step.incoming)));
    forall i | 0 <= i < |stored| ensures MinterSound(w1, stored[i]) && Ids(stored)[i] == Ids(step.incoming)[i] {
      WriteKeepsLifecycle(step.incoming, w.stored, w.clock, i);
      assert step.incoming[i] in step.incoming && Ids(step.incoming)[i] in Ids(step.incoming);
      var id := Ids(step.incoming)[i];
      if id in Ids(w.stored) {
        var k :| 0 <= k < |w.stored| && Ids(w.stored)[k] == id;
        assert MinterSound(w, w.stored[k]);
        assert stored[i].retired ==> w.stored[k].retired by {
          forall l | 0 <= l < |w.stored| && w.stored[l].id == id ensures l == k {
            assert Ids(w.stored)[l] == Ids(w.stored)[k];
          }
        }
      } else {
        forall k | 0 <= k < |w.stored| ensures w.stored[k].id != id { assert Ids(w.stored)[k] == w.stored[k].id; }
      }
    }
    assert Ids(stored) == Ids(step.incoming);
    FreshView(w1, step.n, stored);
  }

  lemma CommitKeeps(s: Settings, w: World, step: Step)
    requires Inv(s, w) && Enabled(s, w, step) && step.CommitRotation?
    ensures Inv(s, Next(s, w, step))
  {
    hide ValidSet, Preserved;
    var w' := Next(s, w, step);
    var i, retiredAt := w.pending.value.index, w.pending.value.retiredAt;
    var id := w.stored[i].id;
    assert MinterSound(w, w.stored[i]);
    forall k | 0 <= k < |w'.stored| ensures MinterSound(w', w'.stored[k]) {
      if k < |w.stored| {
        assert MinterSound(w, w.stored[k]);
        assert Ids(w.stored)[k] == w.stored[k].id && Ids(w.stored)[i] == id;
      }
    }
    forall k, l | 0 <= k < l < |w'.stored| ensures Ids(w'.stored)[k] != Ids(w'.stored)[l] {
      assert MinterSound(w, w.stored[k]);
      assert Ids(w.stored)[k] == w.stored[k].id;
      if l < |w.stored| { assert Ids(w.stored)[l] == w.stored[l].id; }
    }
    forall n | 0 <= n < |w.nodes| ensures NodeSound(w'.(nodes := w.nodes), w.nodes[n]) {
      assert NodeSound(w, w.nodes[n]);
    }
    FreshView(w'.(nodes := w.nodes), step.n, w'.stored);
  }

  lemma SweepKeeps(s: Settings, w: World, step: Step)
    requires Inv(s, w) && Enabled(s, w, step) && (step.SweepDelete? || step.SweepDrop?)
    ensures Inv(s, Next(s, w, step))
  {
    hide ValidSet, Preserved, Rotated;
    if step.SweepDelete? {
      assert MinterSound(w, w.stored[step.index]);
    } else {
      var p := Kept(step.now, s.grace, step.undeletable);
      var kept := Filter(p, w.stored);
      FilterMembers(p, w.stored);
      FilterDistinctIds(p, w.stored);
      forall i | 0 <= i < |kept| ensures MinterSound(w, kept[i]) {
        assert kept[i] in kept;
        var k :| 0 <= k < |w.stored| && w.stored[k] == kept[i];
        assert MinterSound(w, w.stored[k]);
      }
      FreshView(w, step.n, kept);
    }
  }

  lemma FilterDistinctIds(p: Minter -> bool, ms: seq<Minter>)
    requires Distinct(Ids(ms))
    ensures Distinct(Ids(Filter(p, ms)))
  {
    FilterDistinctBy((m: Minter) => m.id, p, ms);
  }

  lemma StepKeeps(s: Settings, w: World, step: Step)
    requires Inv(s, w) && Enabled(s, w, step) && !s.reuse
    ensures Inv(s, Next(s, w, step))
  {
    hide ValidSet, Preserved, Rotated;
    match step
    case Write(_, _) => WriteKeeps(s, w, step);
    case CommitRotation(_, _, _) => CommitKeeps(s, w, step);
    case SweepDelete(_, _) => SweepKeeps(s, w, step);
    case SweepDrop(_, _, _) => SweepKeeps(s, w, step);
    case Load(n) =>
      FreshView(w, n, w.stored);
      assert NodeSound(w, w.nodes[n]);
    case Rebuild(n) => FreshView(w, n, w.stored);
    case Tick(elapsed) =>
      forall n | 0 <= n < |w.nodes| ensures NodeSound(w.(clock := w.clock + elapsed), w.nodes[n]) {
        assert NodeSound(w, w.nodes[n]);
      }
      forall i | 0 <= i < |w.stored| ensures MinterSound(w.(clock := w.clock + elapsed), w.stored[i]) {
        assert MinterSound(w, w.stored[i]);
      }
    case _ =>
  }

  lemma {:induction false} InvHolds(s: Settings, steps: seq<Step>)
    requires After(s, steps).Some? && !s.reuse
    ensures Inv(s, After(s, steps).value)
  {
    if steps != [] {
      var before, step := steps[..|steps| - 1], steps[|steps| - 1];
      InvHolds(s, before);
      StepKeeps(s, After(s, before).value, step);
    } else {
      assert Ids([]) == [];
    }
  }

  // ----- what a rotation may commit ------------------------------------------------------

  lemma {:induction false} PendingHolds(s: Settings, steps: seq<Step>)
    requires After(s, steps).Some?
    ensures PendingSound(After(s, steps).value)
  {
    hide ValidSet, Rotated, Preserved, Filter;
    if steps != [] { PendingHolds(s, steps[..|steps| - 1]); }
  }

  /** The check of the rotation under way covers every successor it may still commit. */
  ghost predicate CheckCovers(s: Settings, w: World)
    requires w.pending.Some? && w.pending.value.index < |w.stored|
  {
    var i := w.pending.value.index;
    || w.stored[i].neverExpires || SomeNeverExpires(Others(w.stored, i))
    || (forall m :: m in Others(w.stored, i) ==>
          OutOfReach(m, StandIn(w.stored[i], w.pending.value.retiredAt), s.rotation))
  }

  /** A successor of the minter being rotated, made at the given time. */
  function SuccessorAt(m: Minter, id: string): Time -> Minter {
    (t: Time) => Minter(id, "", if m.neverExpires then 0 else t + MINTER_SECRET_LIFETIME, m.neverExpires, t, false, 0,
                        map[])
  }

  /** Whether a rotation under way can still commit an invalid set is decided when it is checked: it
      cannot exactly when the check covers it. */
  lemma CommitsStayValidExactly(s: Settings, w: World, id: string)
    requires PendingSound(w) && w.pending.Some?
    ensures var i, at := w.pending.value.index, w.pending.value.retiredAt;
            CheckCovers(s, w) <==> StaysValid(w.stored, i, at, at, s.rotation, SuccessorAt(w.stored[i], id))
  {
    var i, at := w.pending.value.index, w.pending.value.retiredAt;
    hide ValidSet, Rotated, Others, Filter;
    RotationCheckIsExactly(w.stored, i, at, at, s.rotation, StandIn(w.stored[i], at), SuccessorAt(w.stored[i], id));
  }

  /** Every rotation of a run is covered by its check. */
  ghost predicate SafeCommits(s: Settings, steps: seq<Step>) {
    steps == [] ||
    var before, step := steps[..|steps| - 1], steps[|steps| - 1];
    && SafeCommits(s, before)
    && (step.CommitRotation? && After(s, before).Some? && Enabled(s, After(s, before).value, step) ==>
          CheckCovers(s, After(s, before).value))
  }

  lemma CommitStaysValid(w: World, s: Settings, step: Step)
    requires PendingSound(w) && Enabled(s, w, step) && step.CommitRotation? && CheckCovers(s, w)
    ensures ValidSet(Next(s, w, step).stored)
  {
    var i, at := w.pending.value.index, w.pending.value.retiredAt;
    var expiry := (t: Time) => if w.stored[i].neverExpires then 0 else t + MINTER_SECRET_LIFETIME;
    var successorAt := (t: Time) => step.successor.(expiresAt := expiry(t));
    assert successorAt(step.madeAt) == step.successor;
    hide ValidSet, Rotated, Others, Filter;
    RotationCheckIsExactly(w.stored, i, at, at, s.rotation, StandIn(w.stored[i], at), successorAt);
  }

  /** The stored set stays valid in every run whose rotations are covered by their check: writes are
      validated, sweeps drop nothing active, and nothing else changes it. A rotation that is not
      covered can break it. */
  lemma {:induction false} StoredStaysValid(s: Settings, steps: seq<Step>)
    requires After(s, steps).Some? && SafeCommits(s, steps)
    ensures After(s, steps).value.stored == [] || ValidSet(After(s, steps).value.stored)
  {
    hide ValidSet, Rotated, Preserved, Filter;
    if steps != [] {
      var before, step := steps[..|steps| - 1], steps[|steps| - 1];
      var w := After(s, before).value;
      StoredStaysValid(s, before);
      PendingHolds(s, before);
      match step
      case CommitRotation(_, _, _) => CommitStaysValid(w, s, step);
      case SweepDrop(_, now, undeletable) => SweepStaysValid(w, now, s.grace, undeletable);
      case _ =>
    }
  }

  lemma SweepStaysValid(w: World, now: Time, grace: int, undeletable: set<string>)
    requires w.stored == [] || ValidSet(w.stored)
    ensures var kept := Filter(Kept(now, grace, undeletable), w.stored);
            kept == [] || ValidSet(kept)
  {
    SweepKeepsValid(w.stored, now, grace, undeletable);
  }

  /** A rotation that takes no time commits the very expiry it was checked with. */
  lemma NoDelayIsCovered(s: Settings, w: World)
    requires PendingSound(w) && w.pending.Some? && s.rotation == 0
    ensures CheckCovers(s, w)
  {
    var i, at := w.pending.value.index, w.pending.value.retiredAt;
    var standIns := (t: Time) => StandIn(w.stored[i], t);
    hide ValidSet, Rotated, Others, Filter;
    assert StaysValid(w.stored, i, at, at, 0, standIns);
    RotationCheckIsExactly(w.stored, i, at, at, 0, StandIn(w.stored[i], at), standIns);
  }

  lemma {:induction false} NoDelayIsSafe(s: Settings, steps: seq<Step>)
    requires After(s, steps).Some? && s.rotation == 0
    ensures SafeCommits(s, steps)
  {
    if steps != [] {
      var before, step := steps[..|steps| - 1], steps[|steps| - 1];
      NoDelayIsSafe(s, before);
      if step.CommitRotation? {
        PendingHolds(s, before);
        NoDelayIsCovered(s, After(s, before).value);
      }
    }
  }

  // ----- safety --------------------------------------------------------------------------

  /** A node selects a minter whose upstream credential a sweep has already deleted. */
  ghost predicate SelectsGone(s: Settings, w: World, step: Step) {
    step.Select? && Enabled(s, w, step) && step.id in w.gone
  }

  ghost predicate Safe(s: Settings) {
    forall steps, step :: After(s, steps).Some? ==> !SelectsGone(s, After(s, steps).value, step)
  }

  /** Safe in every run whose rotations are covered by their check. */
  ghost predicate SafeWhenCovered(s: Settings) {
    forall steps, step ::
      After(s, steps).Some? && SafeCommits(s, steps) ==> !SelectsGone(s, After(s, steps).value, step)
  }

  /** While the stored set is valid, a node that has read it selects from what it read. */
  ghost predicate Current(w: World) {
    && (w.stored == [] || ValidSet(w.stored))
    && (forall n :: 0 <= n < |w.nodes| ==>
          w.nodes[n].view == [] || (w.stored != [] && w.nodes[n].triedAt == w.nodes[n].loadedAt))
  }

  lemma CurrentKeeps(s: Settings, w: World, step: Step)
    requires Current(w) && Enabled(s, w, step)
    requires Next(s, w, step).stored == [] || ValidSet(Next(s, w, step).stored)
    ensures Current(Next(s, w, step))
  {
    EmptyIsInvalid();
    if step.SweepDrop? { SweepKeepsValid(w.stored, step.now, s.grace, step.undeletable); }
    hide ValidSet, Rotated, Preserved, Filter, Distinct, Ids;
  }

  lemma {:induction false} CoveredIsCurrent(s: Settings, steps: seq<Step>)
    requires After(s, steps).Some? && SafeCommits(s, steps)
    ensures Current(After(s, steps).value)
  {
    if steps != [] {
      var before, step := steps[..|steps| - 1], steps[|steps| - 1];
      CoveredIsCurrent(s, before);
      StoredStaysValid(s, steps);
      hide Current, Next, Enabled, ValidSet, SafeCommits;
      CurrentKeeps(s, After(s, before).value, step);
    }
  }

  lemma EmptyIsInvalid()
    ensures !ValidSet([])
  {}

  lemma GraceIsLongEnough(s: Settings, steps: seq<Step>, step: Step)
    requires !s.reuse && s.staleness + s.rotation <= s.grace && After(s, steps).Some? && SafeCommits(s, steps)
    ensures !SelectsGone(s, After(s, steps).value, step)
  {
    InvHolds(s, steps);
    CoveredIsCurrent(s, steps);
    var w := After(s, steps).value;
    if step.Select? && Enabled(s, w, step) { assert NodeSound(w, w.nodes[step.n]); }
  }

  lemma {:induction false} NodesStay(s: Settings, steps: seq<Step>)
    requires After(s, steps).Some?
    ensures |After(s, steps).value.nodes| == s.nodes
  {
    hide ValidSet, Rotated, Preserved, Filter;
    if steps != [] { NodesStay(s, steps[..|steps| - 1]); }
  }

  /** A node on its own makes every change itself, so its snapshot is the stored set or empty. */
  lemma {:induction false} OnlyNodeIsCurrent(s: Settings, steps: seq<Step>)
    requires s.nodes == 1 && After(s, steps).Some?
    ensures var w := After(s, steps).value;
            |w.nodes| == 1 && (w.nodes[0].view == w.stored || w.nodes[0].view == [])
  {
    hide ValidSet, Rotated, Preserved, Filter;
    if steps != [] { OnlyNodeIsCurrent(s, steps[..|steps| - 1]); }
  }

  lemma OnlyNodeIsSafe(s: Settings, steps: seq<Step>, step: Step)
    requires s.nodes == 1 && !s.reuse && After(s, steps).Some?
    ensures !SelectsGone(s, After(s, steps).value, step)
  {
    InvHolds(s, steps);
    var w := After(s, steps).value;
    hide After, ValidSet, Rotated, Preserved, Filter, Distinct;
    if step.Select? && Enabled(s, w, step) {
      OnlyNodeIsCurrent(s, steps);
      var m :| m in w.stored && m.id == step.id && !m.retired;
      var i :| 0 <= i < |w.stored| && w.stored[i] == m;
      assert MinterSound(w, w.stored[i]);
    }
  }

  // ----- runs that go wrong --------------------------------------------------------------

  function First(): Minter {
    Minter("a", "", 0, true, 1, false, 0, map[CLIENT_ID := "x"])
  }

  function Second(): Minter {
    Minter("b", "", 0, true, 1, false, 0, map[])
  }

  function Third(): Minter {
    Minter("c", "", 0, true, 1, false, 0, map[])
  }

  lemma AfterNext(s: Settings, steps: seq<Step>, n: nat)
    requires n < |steps| && After(s, steps[..n]).Some? && Enabled(s, After(s, steps[..n]).value, steps[n])
    ensures After(s, steps[..n + 1]) == Some(Next(s, After(s, steps[..n]).value, steps[n]))
  {
    assert steps[..n + 1][..n] == steps[..n];
  }

  lemma {:induction false} CoveredIf(s: Settings, steps: seq<Step>)
    requires forall n :: 0 <= n < |steps| && steps[n].CommitRotation? && After(s, steps[..n]).Some? ==>
               var w := After(s, steps[..n]).value;
               w.pending.Some? && w.pending.value.index < |w.stored| && CheckCovers(s, w)
    ensures SafeCommits(s, steps)
  {
    hide CheckCovers, After;
    if steps != [] {
      var before := steps[..|steps| - 1];
      forall n | 0 <= n < |before| ensures before[..n] == steps[..n] && before[n] == steps[n] {}
      CoveredIf(s, before);
    }
  }

  lemma TickAt(s: Settings, steps: seq<Step>, n: nat)
    requires n < |steps| && After(s, steps[..n]).Some? && steps[n].Tick?
    ensures var w := After(s, steps[..n]).value;
            After(s, steps[..n + 1]) == Some(w.(clock := w.clock + steps[n].elapsed))
  {
    hide After;
    AfterNext(s, steps, n);
  }

  lemma LoadAt(s: Settings, steps: seq<Step>, n: nat)
    requires n < |steps| && After(s, steps[..n]).Some? && steps[n].Load?
    requires steps[n].n < |After(s, steps[..n]).value.nodes|
    ensures var w, k := After(s, steps[..n]).value, steps[n].n;
            After(s, steps[..n + 1]) ==
            Some(w.(nodes := w.nodes[k := if w.stored != [] && ValidSet(w.stored) then Node(w.stored, w.clock, w.clock)
                                          else w.nodes[k].(triedAt := w.clock)]))
  {
    hide After, ValidSet;
    AfterNext(s, steps, n);
  }

  /** Node 0 commits a rotation of the first minter. */
  lemma CommitAt(s: Settings, steps: seq<Step>, n: nat, at: Time, successor: Minter, madeAt: Time)
    requires n < |steps| && After(s, steps[..n]).Some? && steps[n] == CommitRotation(0, successor, madeAt)
    requires var w := After(s, steps[..n]).value;
             && w.nodes != [] && w.stored != [] && w.pending == Some(Pending(0, at))
             && w.clock <= at + s.rotation && at <= madeAt <= w.clock
             && Succeeds(successor, w.stored[0], madeAt) && successor.id !in w.used
    ensures var w := After(s, steps[..n]).value;
            var stored := Rotated(w.stored, 0, at, successor);
            After(s, steps[..n + 1]) ==
            Some(World(w.clock, stored, None, w.nodes[0 := Node(stored, w.clock, w.clock)], w.gone,
                       w.used + {successor.id}, w.retirements[w.stored[0].id := Retirement(at, w.clock)]))
  {
    hide After, Rotated, Succeeds;
    AfterNext(s, steps, n);
  }

  lemma SweepAt(s: Settings, steps: seq<Step>, n: nat)
    requires n < |steps| && After(s, steps[..n]).Some? && steps[n].SweepDelete? && steps[n].index == 0
    requires var w := After(s, steps[..n]).value;
             && w.pending.None? && w.stored != [] && steps[n].now <= w.clock && Aged(w.stored[0], steps[n].now, s.grace)
             && CLIENT_ID in w.stored[0].rotationParams && w.stored[0].rotationParams[CLIENT_ID] != ""
    ensures var w := After(s, steps[..n]).value;
            After(s, steps[..n + 1]) == Some(w.(gone := w.gone + {w.stored[0].id}))
  {
    hide After, Aged;
    AfterNext(s, steps, n);
  }

  /** Node 0 writes a set. */
  lemma WriteAt(s: Settings, steps: seq<Step>, n: nat, stored: seq<Minter>)
    requires n < |steps| && After(s, steps[..n]).Some? && steps[n].Write? && steps[n].n == 0 && s.reuse
    requires var w := After(s, steps[..n]).value;
             && w.nodes != [] && w.pending.None? && (forall m :: m in steps[n].incoming ==> !m.retired)
             && Distinct(Ids(steps[n].incoming)) && Preserved(steps[n].incoming, w.stored, w.clock) == stored
             && ValidSet(stored)
    ensures var w := After(s, steps[..n]).value;
            After(s, steps[..n + 1]) ==
            Some(w.(stored := stored, nodes := w.nodes[0 := Node(stored, w.clock, w.clock)],
                    used := w.used + Elements(Ids(steps[n].incoming))))
  {
    hide After, ValidSet, Preserved, Distinct, Ids;
    AfterNext(s, steps, n);
  }

  lemma StartAt(s: Settings, steps: seq<Step>, n: nat)
    requires n < |steps| && After(s, steps[..n]).Some? && steps[n].StartRotation? && steps[n].index == 0
    requires var w := After(s, steps[..n]).value;
             && w.pending.None? && w.stored != [] && !w.stored[0].retired
             && ValidSet(Rotated(w.stored, 0, w.clock, StandIn(w.stored[0], w.clock)))
    ensures var w := After(s, steps[..n]).value;
            After(s, steps[..n + 1]) == Some(w.(pending := Some(Pending(0, w.clock))))
  {
    hide After, ValidSet, Rotated;
    AfterNext(s, steps, n);
  }

  lemma NeverExpiringIsValid(minters: seq<Minter>, i: nat)
    requires i < |minters| && !minters[i].retired
    requires forall m :: m in minters ==> m.neverExpires
    ensures ValidSet(minters)
  {
    FilterMembers(IsActive(), minters);
    assert minters[i] in minters && minters[i] in Active(minters);
  }

  lemma NewSet(a: Minter, b: Minter)
    requires a.createdAt != 0 && b.createdAt != 0
    ensures Preserved([a, b], [], 1) == [a, b]
    ensures Ids([a, b]) == [a.id, b.id] && Elements(Ids([a, b])) == {a.id, b.id}
  {
    assert Preserved([a, b], [], 1)[0] == a && Preserved([a, b], [], 1)[1] == b;
    assert Ids([a, b]) == [a.id, b.id];
    assert Elements([a.id, b.id]) == {a.id, b.id};
  }

  /** A first write of two minters by node 0. */
  lemma Written(s: Settings, steps: seq<Step>, a: Minter, b: Minter)
    requires s.nodes > 0 && steps != [] && steps[0] == Write(0, [a, b]) && ValidSet([a, b])
    requires a.id != b.id && a.createdAt != 0 && b.createdAt != 0 && !a.retired && !b.retired
    ensures After(s, steps[..1]) ==
            Some(World(1, [a, b], None, Init(s).nodes[0 := Node([a, b], 1, 1)], {}, {a.id, b.id}, map[]))
  {
    assert steps[..0] == [] && After(s, []) == Some(Init(s));
    NewSet(a, b);
    hide After, ValidSet, Preserved, Ids, Elements;
    AfterNext(s, steps, 0);
    assert {} + {a.id, b.id} == {a.id, b.id};
  }

  lemma StillOffered(s: Settings, w: World, n: nat, i: nat)
    requires n < |w.nodes| && i < |w.nodes[n].view| && w.clock <= w.nodes[n].triedAt + s.staleness
    requires !w.nodes[n].view[i].retired && w.nodes[n].view[i].id in w.gone
    ensures SelectsGone(s, w, Select(n, w.nodes[n].view[i].id))
  {
    assert w.nodes[n].view[i] in w.nodes[n].view;
  }

  /** What the runs below need of their minters. */
  lemma Cast()
    ensures First().id == "a" && Second().id == "b" && Third().id == "c"
    ensures First().neverExpires && Second().neverExpires && Third().neverExpires
    ensures !First().retired && !Second().retired && !Third().retired && Succeeds(Third(), First(), 1)
    ensures CLIENT_ID in First().rotationParams && First().rotationParams[CLIENT_ID] != ""
    ensures "c" !in {"a", "b"}
  {}

  // ----- a grace too short

  /** The retirement time is chosen, a second node reads the set just before it is persisted, and
      the sweep deletes the credential while that snapshot is still in use. */
  function SweepTime(s: Settings): Time {
    if s.rotation <= s.grace + 1 then 2 + s.grace else 1 + s.rotation
  }

  function Race(s: Settings): seq<Step> {
    [Write(0, [First(), Second()]), StartRotation(0), Tick(s.rotation), Load(1),
     CommitRotation(0, Third(), 1), Tick(SweepTime(s) - 1 - s.rotation), SweepDelete(0, SweepTime(s))]
  }

  lemma RaceShape(s: Settings)
    ensures var r := Race(s);
            && |r| == 7 && r[..7] == r && r[0] == Write(0, [First(), Second()]) && r[1] == StartRotation(0)
            && r[2] == Tick(s.rotation) && r[3] == Load(1) && r[4] == CommitRotation(0, Third(), 1)
            && r[5] == Tick(SweepTime(s) - 1 - s.rotation) && r[6] == SweepDelete(0, SweepTime(s))
  {}

  /** The rotation of "a" is checked as soon as the set is written. */
  lemma Started(s: Settings, steps: seq<Step>)
    requires s.nodes > 0 && |steps| >= 2
    requires steps[0] == Write(0, [First(), Second()]) && steps[1] == StartRotation(0)
    ensures var two := [First(), Second()];
            After(s, steps[..2]) ==
            Some(World(1, two, Some(Pending(0, 1)), Init(s).nodes[0 := Node(two, 1, 1)], {}, {"a", "b"}, map[]))
  {
    var two := [First(), Second()];
    NeverExpiringIsValid(two, 0);
    Written(s, steps, First(), Second());
    hide After, ValidSet;
    var rotated := Rotated(two, 0, 1, StandIn(First(), 1));
    assert rotated == [Retire(First(), 1), Second(), StandIn(First(), 1)];
    NeverExpiringIsValid(rotated, 1);
    hide Rotated, StandIn, First, Second, Next, Enabled;
    StartAt(s, steps, 1);
  }

  lemma RaceLoads(s: Settings)
    requires s.nodes >= 2
    ensures var two := [First(), Second()];
            After(s, Race(s)[..4]) ==
            Some(World(1 + s.rotation, two, Some(Pending(0, 1)),
                       Init(s).nodes[0 := Node(two, 1, 1)][1 := Node(two, 1 + s.rotation, 1 + s.rotation)],
                       {}, {"a", "b"}, map[]))
  {
    RaceShape(s);
    Cast();
    hide After, Next, Enabled, ValidSet, Race, First, Second;
    Started(s, Race(s));
    NeverExpiringIsValid([First(), Second()], 0);
    TickAt(s, Race(s), 2);
    LoadAt(s, Race(s), 3);
  }

  lemma RaceCommits(s: Settings)
    requires s.nodes >= 2
    ensures var w := After(s, Race(s)[..5]);
            && w.Some? && w.value.pending.None? && w.value.clock == 1 + s.rotation && w.value.gone == {}
            && w.value.stored == [Retire(First(), 1), Second(), Third()] && |w.value.nodes| == s.nodes
            && w.value.nodes[1] == Node([First(), Second()], 1 + s.rotation, 1 + s.rotation)
  {
    RaceShape(s);
    Cast();
    hide After, Next, Enabled, Race, First, Second, Third, Succeeds;
    RaceLoads(s);
    CommitAt(s, Race(s), 4, 1, Third(), 1);
  }

  lemma RaceSweeps(s: Settings)
    requires s.nodes >= 2
    ensures var w := After(s, Race(s));
            && w.Some? && w.value.clock == SweepTime(s) && w.value.gone == {"a"} && |w.value.nodes| == s.nodes
            && w.value.nodes[1] == Node([First(), Second()], 1 + s.rotation, 1 + s.rotation)
  {
    RaceShape(s);
    Cast();
    hide After, Next, Enabled, Race, First, Second, Third;
    RaceCommits(s);
    TickAt(s, Race(s), 5);
    SweepAt(s, Race(s), 6);
  }

  lemma ShortGraceIsUnsafe(s: Settings)
    requires s.nodes >= 2 && s.staleness + s.rotation > s.grace
    ensures !SafeWhenCovered(s)
  {
    RaceShape(s);
    Cast();
    hide Race, After, First, Second;
    RaceLoads(s);
    CoveredIf(s, Race(s));
    RaceSweeps(s);
    StillOffered(s, After(s, Race(s)).value, 1, 0);
  }

  // ----- a commit its check does not cover

  function Expiring(): Minter {
    Minter("a", "", 1, false, 1, false, 0, map[CLIENT_ID := "x"])
  }

  function Outlasting(): Minter {
    Minter("b", "", MINTER_SECRET_LIFETIME + MIN_MINTER_GAP + 1, false, 1, false, 0, map[])
  }

  function Late(): Minter {
    Minter("c", "", 2 + MINTER_SECRET_LIFETIME, false, 2, false, 0, map[])
  }

  /** A second node has read the set. The successor is made a moment after the check, and the set it
      commits is invalid: the node reads it and keeps what it has, until long after the sweep. */
  function Stale(s: Settings): seq<Step> {
    [Write(0, [Expiring(), Outlasting()]), Load(1), StartRotation(0), Tick(1), CommitRotation(0, Late(), 2),
     Tick(s.grace), SweepDelete(0, 2 + s.grace), Load(1)]
  }

  lemma StaleShape(s: Settings)
    ensures var r := Stale(s);
            && |r| == 8 && r[..8] == r && r[0] == Write(0, [Expiring(), Outlasting()]) && r[1] == Load(1)
            && r[2] == StartRotation(0) && r[3] == Tick(1) && r[4] == CommitRotation(0, Late(), 2)
            && r[5] == Tick(s.grace) && r[6] == SweepDelete(0, 2 + s.grace) && r[7] == Load(1)
  {}

  lemma StaleSets()
    ensures var a, b := Expiring(), Outlasting();
            && ValidSet([a, b]) && ValidSet(Rotated([a, b], 0, 1, StandIn(a, 1)))
            && !ValidSet(Rotated([a, b], 0, 1, Late()))
  {
    var a, b := Expiring(), Outlasting();
    RotatedValid([a, b], 0, 1, StandIn(a, 1), 1);
    RotatedValid([a, b], 0, 1, Late(), 2);
    assert [a, b][..0] == [] && [a, b][1..] == [b] && [b][1..] == [];
    assert Active([b]) == [b];
    assert Others([a, b], 0) == [b];
    assert b in [b] && !Apart(b, Late()) && Apart(b, StandIn(a, 1));
    assert Active([a, b]) == [a] + [b];
    assert Apart(a, b);
    hide Active, Others;
  }

  lemma StaleCast()
    ensures !Expiring().retired && !Outlasting().retired && Succeeds(Late(), Expiring(), 2)
    ensures Expiring().id == "a" && Outlasting().id == "b" && Late().id == "c" && "c" !in {"a", "b"}
    ensures Expiring().createdAt != 0 && Outlasting().createdAt != 0
  {}

  lemma StaleStarts(s: Settings)
    requires s.nodes >= 2
    ensures var two := [Expiring(), Outlasting()];
            After(s, Stale(s)[..3]) ==
            Some(World(1, two, Some(Pending(0, 1)), Init(s).nodes[0 := Node(two, 1, 1)][1 := Node(two, 1, 1)],
                       {}, {"a", "b"}, map[]))
  {
    StaleShape(s);
    StaleSets();
    StaleCast();
    hide After, Next, Enabled, ValidSet, Rotated, Stale, Expiring, Outlasting, Late, Succeeds, StandIn;
    Written(s, Stale(s), Expiring(), Outlasting());
    LoadAt(s, Stale(s), 1);
    StartAt(s, Stale(s), 2);
  }

  lemma StaleCommits(s: Settings)
    requires s.nodes >= 2 && s.rotation > 0
    ensures var two, w := [Expiring(), Outlasting()], After(s, Stale(s)[..5]);
            && w.Some? && w.value.clock == 2 && w.value.pending.None? && w.value.gone == {}
            && w.value.stored == Rotated(two, 0, 1, Late())
            && |w.value.nodes| == s.nodes && w.value.nodes[1] == Node(two, 1, 1)
  {
    StaleShape(s);
    StaleCast();
    hide After, Next, Enabled, Rotated, Stale, Expiring, Outlasting, Late, Succeeds;
    StaleStarts(s);
    TickAt(s, Stale(s), 3);
    CommitAt(s, Stale(s), 4, 1, Late(), 2);
  }

  /** However long the grace: one rotation that takes any time at all can make a node go on selecting
      a minter whose credential is gone. */
  lemma UncoveredCommitIsUnsafe(s: Settings)
    requires s.nodes >= 2 && s.rotation > 0
    ensures !Safe(s)
  {
    StaleShape(s);
    StaleSets();
    hide After, Next, Enabled, ValidSet, Stale;
    StaleCommits(s);
    var two := [Expiring(), Outlasting()];
    assert Rotated(two, 0, 1, Late())[0] == Retire(Expiring(), 1);
    hide Rotated;
    TickAt(s, Stale(s), 5);
    SweepAt(s, Stale(s), 6);
    LoadAt(s, Stale(s), 7);
    StillOffered(s, After(s, Stale(s)).value, 1, 0);
  }

  // ----- an id that comes back

  /** "a" is rotated out and swept, a write drops it, and another lists it again. */
  function Return(s: Settings): seq<Step> {
    [Write(0, [First(), Second()]), StartRotation(0), CommitRotation(0, Third(), 1), Tick(1 + s.grace),
     SweepDelete(0, 2 + s.grace), Write(0, [Second(), Third()]), Write(0, [First(), Second()])]
  }

  lemma ReturnShape(s: Settings)
    ensures var r := Return(s);
            && |r| == 7 && r[..7] == r && r[0] == Write(0, [First(), Second()]) && r[1] == StartRotation(0)
            && r[2] == CommitRotation(0, Third(), 1) && r[3] == Tick(1 + s.grace)
            && r[4] == SweepDelete(0, 2 + s.grace) && r[5] == Write(0, [Second(), Third()])
            && r[6] == Write(0, [First(), Second()])
  {}

  lemma ReturnCommits(s: Settings)
    requires s.nodes > 0
    ensures var w := After(s, Return(s)[..3]);
            && w.Some? && w.value.clock == 1 && w.value.pending.None? && w.value.gone == {}
            && w.value.stored == [Retire(First(), 1), Second(), Third()] && |w.value.nodes| == s.nodes
    ensures After(s, Return(s)[..2]).Some? && After(s, Return(s)[..2]).value.pending == Some(Pending(0, 1))
    ensures After(s, Return(s)[..2]).value.stored == [First(), Second()]
  {
    ReturnShape(s);
    Cast();
    hide After, Next, Enabled, Return, First, Second, Third, Succeeds;
    Started(s, Return(s));
    CommitAt(s, Return(s), 2, 1, Third(), 1);
  }

  lemma ReturnSweeps(s: Settings)
    requires s.nodes > 0
    ensures var w := After(s, Return(s)[..5]);
            && w.Some? && w.value.clock == 2 + s.grace && w.value.pending.None? && w.value.gone == {"a"}
            && w.value.stored == [Retire(First(), 1), Second(), Third()] && |w.value.nodes| == s.nodes
  {
    ReturnShape(s);
    Cast();
    hide After, Next, Enabled, Return, First, Second, Third;
    ReturnCommits(s);
    TickAt(s, Return(s), 3);
    SweepAt(s, Return(s), 4);
  }

  lemma ReturnIsCovered(s: Settings)
    requires s.nodes > 0
    ensures SafeCommits(s, Return(s))
  {
    ReturnShape(s);
    Cast();
    hide Return, After, First, Second, Third;
    ReturnCommits(s);
    CoveredIf(s, Return(s));
  }

  lemma ByTwoIds(a: Minter, b: Minter)
    ensures ById([a, b]) == map[a.id := a][b.id := b]
  {
    assert [a, b][..1] == [a] && [a][..0] == [];
    assert ById([a]) == map[a.id := a];
  }

  lemma ByThreeIds(a: Minter, b: Minter, c: Minter)
    ensures ById([a, b, c]) == map[a.id := a][b.id := b][c.id := c]
  {
    assert [a, b, c][..2] == [a, b];
    ByTwoIds(a, b);
  }

  lemma ReturnSets(now: Time)
    ensures var swept, kept, back := [Retire(First(), 1), Second(), Third()], [Second(), Third()], [First(), Second()];
            && Preserved(kept, swept, now) == kept && Preserved(back, kept, now) == back
            && ValidSet(kept) && ValidSet(back) && Ids(kept) == ["b", "c"] && Ids(back) == ["a", "b"]
  {
    var swept, kept, back := [Retire(First(), 1), Second(), Third()], [Second(), Third()], [First(), Second()];
    NeverExpiringIsValid(kept, 0);
    NeverExpiringIsValid(back, 0);
    assert Ids(kept) == ["b", "c"] && Ids(back) == ["a", "b"];
    ByThreeIds(Retire(First(), 1), Second(), Third());
    ByTwoIds(Second(), Third());
    hide ById, ValidSet, Ids, Preserved;
    assert Preserved(kept, swept, now) == kept;
    assert Preserved(back, kept, now) == back;
  }

  /** An id that may come back is selected with its credential gone, whatever the grace, and even by
      a node on its own. */
  lemma ReturnIsUnsafe(s: Settings)
    requires s.nodes > 0 && s.reuse
    ensures !SafeWhenCovered(s)
  {
    ReturnShape(s);
    Cast();
    hide After, Next, Enabled, ValidSet, Preserved, Return, Ids, SafeCommits, First, Second, Third, Elements;
    ReturnIsCovered(s);
    ReturnSweeps(s);
    ReturnSets(2 + s.grace);
    WriteAt(s, Return(s), 5, [Second(), Third()]);
    WriteAt(s, Return(s), 6, [First(), Second()]);
    StillOffered(s, After(s, Return(s)).value, 0, 0);
  }

  // ----- exactly when it is safe ---------------------------------------------------------

  /** In runs whose rotations are covered by their check: no node ever selects a minter a sweep has
      deleted, exactly when no id comes back and there is only one node, or the grace covers the time
      since a node read the set and the time a rotation takes together. */
  lemma SafeExactly(s: Settings)
    ensures SafeWhenCovered(s) <==>
              s.nodes == 0 || (!s.reuse && (s.nodes == 1 || s.staleness + s.rotation <= s.grace))
  {
    if s.nodes > 0 && s.reuse {
      ReturnIsUnsafe(s);
    } else if s.nodes > 1 && s.staleness + s.rotation > s.grace {
      ShortGraceIsUnsafe(s);
    } else {
      forall steps, step | After(s, steps).Some? && SafeCommits(s, steps)
        ensures !SelectsGone(s, After(s, steps).value, step)
      {
        NodesStay(s, steps);
        if s.nodes == 1 { OnlyNodeIsSafe(s, steps, step); }
        if s.nodes > 1 { GraceIsLongEnough(s, steps, step); }
      }
    }
  }

  /** In every run: a grace is only enough when rotations take no time. */
  lemma SafeInEveryRunExactly(s: Settings)
    ensures Safe(s) <==>
              s.nodes == 0 || (!s.reuse && (s.nodes == 1 || (s.rotation == 0 && s.staleness <= s.grace)))
  {
    SafeExactly(s);
    if s.nodes > 1 && s.rotation > 0 {
      UncoveredCommitIsUnsafe(s);
    } else {
      forall steps, step | After(s, steps).Some? && SafeWhenCovered(s) && !s.reuse
        ensures !SelectsGone(s, After(s, steps).value, step)
      {
        NodesStay(s, steps);
        if s.nodes == 1 { OnlyNodeIsSafe(s, steps, step); }
        if s.rotation == 0 { NoDelayIsSafe(s, steps); }
      }
      forall steps, step | After(s, steps).Some? && s.nodes == 0
        ensures !SelectsGone(s, After(s, steps).value, step)
      {
        NodesStay(s, steps);
      }
    }
  }

  // ----- retirement ----------------------------------------------------------------------

  lemma {:induction false} RetirementsLast(s: Settings, steps: seq<Step>, k: nat)
    requires k <= |steps| && After(s, steps).Some? && !s.reuse
    ensures After(s, steps[..k]).Some?
    ensures var was, now := After(s, steps[..k]).value, After(s, steps).value;
            forall id :: id in was.retirements ==> id in now.retirements && now.retirements[id] == was.retirements[id]
  {
    hide ValidSet, Rotated, Preserved, Filter;
    if k == |steps| {
      assert steps[..k] == steps;
    } else {
      var before, step := steps[..|steps| - 1], steps[|steps| - 1];
      assert before[..k] == steps[..k];
      RetirementsLast(s, before, k);
      InvHolds(s, before);
      var w := After(s, before).value;
      if step.CommitRotation? { assert MinterSound(w, w.stored[w.pending.value.index]); }
    }
  }

  /** A retired minter keeps its flag and its time for as long as it is listed, whatever is written,
      rotated or swept. */
  lemma RetirementIsFinal(s: Settings, steps: seq<Step>, k: nat, was: Minter, m: Minter)
    requires k <= |steps| && After(s, steps).Some? && After(s, steps[..k]).Some? && !s.reuse
    requires was in After(s, steps[..k]).value.stored && m in After(s, steps).value.stored
    requires was.id == m.id && was.retired
    ensures m.retired && m.retiredAt == was.retiredAt
  {
    RetirementsLast(s, steps, k);
    InvHolds(s, steps);
    InvHolds(s, steps[..k]);
    hide After, ValidSet, Rotated, Preserved, Filter;
    var v, w := After(s, steps[..k]).value, After(s, steps).value;
    var i :| 0 <= i < |v.stored| && v.stored[i] == was;
    var j :| 0 <= j < |w.stored| && w.stored[j] == m;
    assert MinterSound(v, v.stored[i]) && MinterSound(w, w.stored[j]);
  }

  /** A write that lists an id the stored set no longer has brings it back as a new, active minter:
      only what is still stored is carried forward. */
  lemma ReAddedIsActive(m: Minter, stored: seq<Minter>, now: Time)
    requires !m.retired && m.id !in Ids(stored)
    ensures Preserved([m], stored, now) == [if m.createdAt == 0 then m.(createdAt := now) else m]
  {
    ByIdMisses(stored, m.id);
  }
}
