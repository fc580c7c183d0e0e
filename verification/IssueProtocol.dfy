/** Issue, track, revoke and reconcile, interleaved: any number of mounts share one cloud
    account, and every upstream call and storage write is a step of its own. */
module IssueProtocol {
  import opened Common
  import opened Reconciler
  import OwnerTag

  /** `instances[m]` is mount m's owner id. Every pass uses a confirmation hold of at least
      `hold`, a record is written less than `delay` after its credential is created, and the cloud
      reports a creation at most `skew` earlier than the mounts' clock had it. */
  datatype Settings = Settings(instances: seq<string>, hold: int, delay: nat, skew: nat)

  ghost predicate WellSet(s: Settings) {
    && |s.instances| > 0 && s.delay > 0
    && (forall i, j :: 0 <= i < j < |s.instances| ==>
          s.instances[i] != s.instances[j] && |s.instances[i]| == |s.instances[j]|)
  }

  datatype Client = Client(owner: nat, name: string, createdAt: Time, reportedAt: Time)

  /** Where a mount's reconcile pass has got to. */
  datatype Phase =
    | Idle
    | Started(now: Time, config: Config)
    | Listed(now: Time, config: Config, listing: seq<Entity>)
    | Deleting(todo: seq<string>)

  /** `minterIds` are the clients of the mount's stored minters, retired ones included. `minting`
      holds what was created and neither tracked nor stored as a minter yet; `ready` what was
      tracked and not yet returned to its caller. */
  datatype Mount = Mount(
    records: set<string>, minterIds: set<string>, minting: set<string>, ready: set<string>, phase: Phase)

  /** `created`, `handedOut` and `revoked` are history: what was ever created, returned to a
      caller, and deleted upstream by its own mount's revoke, purge or retirement sweep. */
  datatype World = World(
    clock: Time, cloud: set<string>, mounts: seq<Mount>,
    created: map<string, Client>, handedOut: set<string>, revoked: set<string>)

  function Init(s: Settings): World {
    World(1, {}, seq(|s.instances|, _ => Mount({}, {}, {}, {}, Idle)), map[], {}, {})
  }

  datatype Step =
    | Tick(elapsed: nat)
    | Create(m: nat, id: string, role: string, requestId: string, reportedAt: Time)
    | Track(m: nat, id: string)
    | TrackFails(m: nat, id: string, cleanedUp: bool)
    | HandOut(m: nat, id: string)
    | RevokeUpstream(m: nat, id: string)
    | RemoveRecord(m: nat, id: string)
    | SetMinters(m: nat, ids: set<string>)
    | StartPass(m: nat, config: Config)
    | ListCloud(m: nat, listing: seq<Entity>)
    | ReadOwned(m: nat)
    | DeleteNext(m: nat, ok: bool)
    | EndPass(m: nat)

  /** A listing may be stale or partial, but names only what was created under the mount's own
      prefix, with the creation time the cloud reports for it. */
  ghost predicate Lists(s: Settings, w: World, m: nat, listing: seq<Entity>)
    requires m < |s.instances|
  {
    forall e :: e in listing ==>
      && e.id in w.created
      && e.name == w.created[e.id].name && e.createdAt == w.created[e.id].reportedAt
      && OwnerTag.Owns(s.instances[m], e.name)
  }

  /** Ids are never reused. A minter set is written with clients of minters it holds already, with
      rotation successors its own mount has just created, and with clients made elsewhere. */
  ghost predicate Enabled(s: Settings, w: World, step: Step) {
    if step.Tick? then true
    else
      && step.m < |w.mounts| == |s.instances|
      && var mount := w.mounts[step.m];
         match step
         case Create(m, id, _, _, reportedAt) =>
           && id !in w.created && (reportedAt == 0 || reportedAt + s.skew >= w.clock)
           && (forall k :: 0 <= k < |w.mounts| ==> id !in w.mounts[k].minterIds)
         case Track(_, id) =>
           id in mount.minting && id in w.created && w.clock < w.created[id].createdAt + s.delay
         case TrackFails(_, id, _) => id in mount.minting
         case HandOut(_, id) => id in mount.ready
         case RevokeUpstream(_, id) => id in mount.records || (id in mount.minterIds && id in w.created)
         case RemoveRecord(_, id) => true
         case SetMinters(_, ids) =>
           forall id :: id in ids && id in w.created && id !in mount.minterIds ==>
             id in mount.minting && w.clock < w.created[id].createdAt + s.delay
         case StartPass(_, config) => mount.phase.Idle? && config.confirmationHold >= s.hold
         case ListCloud(m, listing) => mount.phase.Started? && Lists(s, w, m, listing)
         case ReadOwned(_) => mount.phase.Listed?
         case DeleteNext(_, _) => mount.phase.Deleting? && mount.phase.todo != []
         case EndPass(_) => true
  }

  function Owned(mount: Mount): set<string> {
    mount.records + mount.minterIds
  }

  ghost function Next(s: Settings, w: World, step: Step): World
    requires Enabled(s, w, step)
  {
    if step.Tick? then w.(clock := w.clock + step.elapsed)
    else
      var mount := w.mounts[step.m];
      match step
      case Create(m, id, role, requestId, reportedAt) =>
        var name := OwnerTag.CredentialName(s.instances[m], role, requestId);
        w.(cloud := w.cloud + {id}, created := w.created[id := Client(m, name, w.clock, reportedAt)],
           mounts := w.mounts[m := mount.(minting := mount.minting + {id})])
      case Track(m, id) =>
        w.(mounts := w.mounts[m := mount.(minting := mount.minting - {id},
             records := mount.records + {id}, ready := mount.ready + {id})])
      case TrackFails(m, id, cleanedUp) =>
        w.(cloud := if cleanedUp then w.cloud - {id} else w.cloud,
           mounts := w.mounts[m := mount.(minting := mount.minting - {id})])
      case HandOut(m, id) =>
        w.(handedOut := w.handedOut + {id}, mounts := w.mounts[m := mount.(ready := mount.ready - {id})])
      case RevokeUpstream(m, id) => w.(cloud := w.cloud - {id}, revoked := w.revoked + {id})
      case RemoveRecord(m, id) =>
        w.(mounts := w.mounts[m := mount.(records := mount.records - {id})])
      case SetMinters(m, ids) =>
        w.(mounts := w.mounts[m := mount.(minterIds := ids, minting := mount.minting - ids)])
      case StartPass(m, config) =>
        w.(mounts := w.mounts[m := mount.(phase := Started(w.clock, config))])
      case ListCloud(m, listing) =>
        w.(mounts := w.mounts[m := mount.(phase := Listed(mount.phase.now, mount.phase.config, listing))])
      case ReadOwned(m) =>
        var pass := Pass(Owned(mount), mount.phase.now, mount.phase.config);
        w.(mounts := w.mounts[m := mount.(phase := Deleting(Ids(pass.Attempts(mount.phase.listing))))])
      case DeleteNext(m, ok) =>
        w.(cloud := if ok then w.cloud - {mount.phase.todo[0]} else w.cloud,
           mounts := w.mounts[m := mount.(phase := Deleting(mount.phase.todo[1..]))])
      case EndPass(m) => w.(mounts := w.mounts[m := mount.(phase := Idle)])
  }

  /** The world after a run, or None when some step was not enabled. */
  ghost function After(s: Settings, steps: seq<Step>): Option<World> {
    if steps == [] then Some(Init(s))
    else
      var before := After(s, steps[..|steps| - 1]);
      var step := steps[|steps| - 1];
      if before.Some? && Enabled(s, before.value, step) then Some(Next(s, before.value, step)) else None
  }

  // ----- the invariant -------------------------------------------------------------------

  /** Too old to be tracked any more. */
  predicate Settled(s: Settings, w: World, id: string) {
    id in w.created && w.clock >= w.created[id].createdAt + s.delay
  }

  ghost predicate ListingSound(s: Settings, w: World, m: nat, listing: seq<Entity>) {
    forall e :: e in listing ==>
      e.id in w.created && w.created[e.id].owner == m && e.createdAt == w.created[e.id].reportedAt
  }

  ghost predicate PhaseSound(s: Settings, w: World, m: nat, mount: Mount) {
    match mount.phase
    case Idle => true
    case Started(now, config) => now <= w.clock && config.confirmationHold >= s.hold
    case Listed(now, config, listing) =>
      now <= w.clock && config.confirmationHold >= s.hold && ListingSound(s, w, m, listing)
    case Deleting(todo) =>
      forall id :: id in todo ==>
        Settled(s, w, id) && w.created[id].owner == m && id !in Owned(mount)
  }

  ghost predicate MountSound(s: Settings, w: World, m: nat, mount: Mount) {
    && (forall id :: id in mount.minting + mount.records + mount.ready ==>
          id in w.created && w.created[id].owner == m)
    && (forall id :: id in mount.minterIds && id in w.created ==> w.created[id].owner == m)
    && mount.minting !! (mount.records + mount.ready + mount.minterIds)
    && PhaseSound(s, w, m, mount)
  }

  ghost predicate ClientsSound(s: Settings, w: World) {
    forall id :: id in w.created ==>
      var c := w.created[id];
      && c.owner < |s.instances|
      && (c.reportedAt == 0 || c.reportedAt + s.skew >= c.createdAt)
      && exists role, requestId :: c.name == OwnerTag.CredentialName(s.instances[c.owner], role, requestId)
  }

  /** A credential that is tracked or a minter's, or still may become either, and that its mount has
      not revoked is in the cloud. */
  ghost predicate MountAlive(s: Settings, w: World, mount: Mount) {
    && (forall id :: id in Owned(mount) && id in w.created && id !in w.revoked ==> id in w.cloud)
    && (forall id :: id in mount.minting ==> id !in w.revoked && (Settled(s, w, id) || id in w.cloud))
  }

  ghost predicate Inv(s: Settings, w: World) {
    && |w.mounts| == |s.instances|
    && ClientsSound(s, w)
    && (forall m :: 0 <= m < |w.mounts| ==>
          MountSound(s, w, m, w.mounts[m]) && MountAlive(s, w, w.mounts[m]))
    && w.revoked <= w.created.Keys && w.cloud <= w.created.Keys
  }

  lemma OwnListing(s: Settings, w: World, m: nat, listing: seq<Entity>)
    requires WellSet(s) && Inv(s, w) && m < |s.instances| && Lists(s, w, m, listing)
    ensures ListingSound(s, w, m, listing)
  {
    forall e | e in listing ensures w.created[e.id].owner == m {
      var c := w.created[e.id];
      var role, requestId :| c.name == OwnerTag.CredentialName(s.instances[c.owner], role, requestId);
      if c.owner != m {
        assert |s.instances[c.owner]| == |s.instances[m]|;
        OwnerTag.OwnsExactly(s.instances[c.owner], s.instances[m], role, requestId);
      }
    }
  }

  /** What a pass decides to delete is settled, its own, and has no record and no minter. */
  lemma AttemptsAreSettled(s: Settings, w: World, m: nat)
    requires WellSet(s) && s.delay + s.skew <= s.hold && Inv(s, w) && m < |w.mounts| && w.mounts[m].phase.Listed?
    ensures var mount := w.mounts[m];
            var pass := Pass(Owned(mount), mount.phase.now, mount.phase.config);
            forall id :: id in Ids(pass.Attempts(mount.phase.listing)) ==>
              Settled(s, w, id) && w.created[id].owner == m && id !in Owned(mount)
  {
    var mount := w.mounts[m];
    assert MountSound(s, w, m, mount);
    var pass := Pass(Owned(mount), mount.phase.now, mount.phase.config);
    pass.AttemptsAreOrphans(mount.phase.listing);
    forall id | id in Ids(pass.Attempts(mount.phase.listing))
      ensures Settled(s, w, id) && w.created[id].owner == m && id !in Owned(mount)
    {
      var i :| 0 <= i < |pass.Attempts(mount.phase.listing)| && Ids(pass.Attempts(mount.phase.listing))[i] == id;
      var e := pass.Attempts(mount.phase.listing)[i];
      assert e in pass.Attempts(mount.phase.listing) && pass.Orphan(e);
    }
  }

  /** What a step of mount t may change: its own mount, and only its own credentials. */
  ghost predicate Evolves(w: World, w': World, t: nat) {
    && |w'.mounts| == |w.mounts| && w.clock <= w'.clock && w.revoked <= w'.revoked
    && (forall m :: 0 <= m < |w.mounts| && m != t ==> w'.mounts[m] == w.mounts[m])
    && (forall id :: id in w.created ==> id in w'.created && w'.created[id] == w.created[id])
    && (forall id :: id in w.cloud && id !in w'.cloud ==> id in w.created && w.created[id].owner == t)
    && (forall id :: id in w'.revoked && id !in w.revoked ==> id in w.created && w.created[id].owner == t)
    && (forall id, m :: id in w'.created && id !in w.created && 0 <= m < |w.mounts| ==> id !in w.mounts[m].minterIds)
  }

  lemma StepEvolves(s: Settings, w: World, step: Step)
    requires Inv(s, w) && Enabled(s, w, step)
    ensures Evolves(w, Next(s, w, step), if step.Tick? then |w.mounts| else step.m)
  {
    if !step.Tick? { assert MountSound(s, w, step.m, w.mounts[step.m]); }
  }

  lemma OtherMountKeeps(s: Settings, w: World, w': World, t: nat, m: nat)
    requires Evolves(w, w', t) && m < |w.mounts| && m != t
    requires MountSound(s, w, m, w.mounts[m]) && MountAlive(s, w, w.mounts[m])
    ensures MountSound(s, w', m, w'.mounts[m]) && MountAlive(s, w', w'.mounts[m])
  {
    var mount := w.mounts[m];
    forall id | Settled(s, w, id) ensures Settled(s, w', id) {}
    assert PhaseSound(s, w', m, mount) by {
      if mount.phase.Listed? { assert ListingSound(s, w', m, mount.phase.listing); }
    }
  }

  lemma PhaseKept(s: Settings, w: World, w': World, m: nat, mount: Mount)
    requires PhaseSound(s, w, m, mount) && w.clock <= w'.clock
    requires forall id :: id in w.created ==> id in w'.created && w'.created[id] == w.created[id]
    ensures PhaseSound(s, w', m, mount)
  {
    if mount.phase.Listed? { assert ListingSound(s, w', m, mount.phase.listing); }
    forall id | Settled(s, w, id) ensures Settled(s, w', id) {}
  }

  lemma CreateKeepsClients(s: Settings, w: World, step: Step)
    requires ClientsSound(s, w) && |w.mounts| == |s.instances| && Enabled(s, w, step) && step.Create?
    ensures ClientsSound(s, Next(s, w, step))
  {
    hide OwnerTag.CredentialName, OwnerTag.Prefix;
    var created := Next(s, w, step).created;
    forall id | id in created
      ensures exists role, requestId ::
        created[id].name == OwnerTag.CredentialName(s.instances[created[id].owner], role, requestId)
    {
      if id == step.id {
        assert created[id].name == OwnerTag.CredentialName(s.instances[step.m], step.role, step.requestId);
      }
    }
  }

  lemma CreateKeepsMount(s: Settings, w: World, step: Step)
    requires Inv(s, w) && Enabled(s, w, step) && step.Create?
    ensures var w' := Next(s, w, step);
            MountSound(s, w', step.m, w'.mounts[step.m]) && MountAlive(s, w', w'.mounts[step.m])
  {
    hide ClientsSound, OwnerTag.CredentialName, OwnerTag.Prefix;
    var w', mount := Next(s, w, step), w.mounts[step.m];
    assert MountSound(s, w, step.m, mount) && MountAlive(s, w, mount);
    PhaseKept(s, w, w', step.m, mount);
    hide PhaseSound;
    assert PhaseSound(s, w', step.m, w'.mounts[step.m]) == PhaseSound(s, w', step.m, mount) by {
      PhaseOnly(s, w', step.m, mount, w'.mounts[step.m]);
    }
  }

  /** Creating a credential, tracking it or handing it out does not concern the mount's pass. */
  lemma PhaseOnly(s: Settings, w: World, m: nat, a: Mount, b: Mount)
    requires a.phase == b.phase && Owned(a) == Owned(b)
    ensures PhaseSound(s, w, m, a) == PhaseSound(s, w, m, b)
  {}

  lemma StorageStepKeeps(s: Settings, w: World, step: Step)
    requires Inv(s, w) && Enabled(s, w, step)
    requires step.Track? || step.TrackFails? || step.HandOut? || step.RevokeUpstream?
             || step.RemoveRecord?
    ensures var w' := Next(s, w, step);
            MountSound(s, w', step.m, w'.mounts[step.m]) && MountAlive(s, w', w'.mounts[step.m])
  {
    var w', mount := Next(s, w, step), w.mounts[step.m];
    assert MountSound(s, w, step.m, mount) && MountAlive(s, w, mount);
    PhaseKept(s, w, w', step.m, mount);
    assert w'.mounts[step.m].phase == mount.phase;
  }

  lemma MintersStepKeeps(s: Settings, w: World, step: Step)
    requires Inv(s, w) && Enabled(s, w, step) && step.SetMinters?
    ensures var w' := Next(s, w, step);
            MountSound(s, w', step.m, w'.mounts[step.m]) && MountAlive(s, w', w'.mounts[step.m])
  {
    var mount := w.mounts[step.m];
    assert MountSound(s, w, step.m, mount) && MountAlive(s, w, mount);
  }

  lemma PassStepKeeps(s: Settings, w: World, step: Step)
    requires WellSet(s) && s.delay + s.skew <= s.hold && Inv(s, w) && Enabled(s, w, step)
    requires step.StartPass? || step.ListCloud? || step.ReadOwned? || step.EndPass?
    ensures var w' := Next(s, w, step);
            MountSound(s, w', step.m, w'.mounts[step.m]) && MountAlive(s, w', w'.mounts[step.m])
  {
    var w', mount := Next(s, w, step), w.mounts[step.m];
    assert MountSound(s, w, step.m, mount) && MountAlive(s, w, mount);
    match step
    case StartPass(_, _) =>
    case ListCloud(_, listing) => OwnListing(s, w, step.m, listing);
    case ReadOwned(_) => AttemptsAreSettled(s, w, step.m);
    case EndPass(_) =>
  }

  lemma DeleteStepKeeps(s: Settings, w: World, step: Step)
    requires Inv(s, w) && Enabled(s, w, step) && step.DeleteNext?
    ensures var w' := Next(s, w, step);
            MountSound(s, w', step.m, w'.mounts[step.m]) && MountAlive(s, w', w'.mounts[step.m])
  {
    var w', mount := Next(s, w, step), w.mounts[step.m];
    assert MountSound(s, w, step.m, mount) && MountAlive(s, w, mount);
    forall id | id in w'.mounts[step.m].phase.todo ensures id in mount.phase.todo {}
  }

  lemma StepKeeps(s: Settings, w: World, step: Step)
    requires WellSet(s) && s.delay + s.skew <= s.hold && Inv(s, w) && Enabled(s, w, step)
    ensures Inv(s, Next(s, w, step))
  {
    var w' := Next(s, w, step);
    var t := if step.Tick? then |w.mounts| else step.m;
    StepEvolves(s, w, step);
    match step {
      case Tick(_) =>
      case Create(_, _, _, _, _) =>
        CreateKeepsMount(s, w, step);
        CreateKeepsClients(s, w, step);
      case StartPass(_, _) => PassStepKeeps(s, w, step);
      case ListCloud(_, _) => PassStepKeeps(s, w, step);
      case ReadOwned(_) => PassStepKeeps(s, w, step);
      case DeleteNext(_, _) => DeleteStepKeeps(s, w, step);
      case EndPass(_) => PassStepKeeps(s, w, step);
      case SetMinters(_, _) => MintersStepKeeps(s, w, step);
      case _ => StorageStepKeeps(s, w, step);
    }
    forall m | 0 <= m < |w.mounts| ensures MountSound(s, w', m, w'.mounts[m]) && MountAlive(s, w', w'.mounts[m]) {
      if m != t { OtherMountKeeps(s, w, w', t, m); }
    }
    OthersUnchanged(s, w, step);
  }

  lemma OthersUnchanged(s: Settings, w: World, step: Step)
    requires Inv(s, w) && Enabled(s, w, step)
    ensures var w' := Next(s, w, step);
            && w'.revoked <= w'.created.Keys && w'.cloud <= w'.created.Keys
            && (!step.Create? ==> w'.created == w.created)
  {
    if !step.Tick? { assert MountSound(s, w, step.m, w.mounts[step.m]); }
  }

  lemma {:induction false} InvHolds(s: Settings, steps: seq<Step>)
    requires WellSet(s) && s.delay + s.skew <= s.hold && After(s, steps).Some?
    ensures Inv(s, After(s, steps).value)
  {
    if steps != [] {
      var before, step := steps[..|steps| - 1], steps[|steps| - 1];
      InvHolds(s, before);
      StepKeeps(s, After(s, before).value, step);
    }
  }

  // ----- the results ---------------------------------------------------------------------

  /** A reconcile delete of a credential that was handed out and whose record still stands, or of the
      client of a stored minter. */
  ghost predicate HarmfulDelete(s: Settings, w: World, step: Step) {
    && step.DeleteNext? && Enabled(s, w, step)
    && var id := w.mounts[step.m].phase.todo[0];
       exists m :: 0 <= m < |w.mounts|
                   && ((id in w.handedOut && id in w.mounts[m].records) || id in w.mounts[m].minterIds)
  }

  ghost predicate Safe(s: Settings) {
    forall steps, step ::
      After(s, steps).Some? ==> !HarmfulDelete(s, After(s, steps).value, step)
  }

  /** A pass deletes only its own mount's credentials, and none that has a record or is a minter's. */
  lemma DeletesOnlyOwnUntracked(s: Settings, steps: seq<Step>, m: nat)
    requires WellSet(s) && s.delay + s.skew <= s.hold && After(s, steps).Some?
    requires var w := After(s, steps).value; m < |w.mounts| && w.mounts[m].phase.Deleting?
    ensures var w := After(s, steps).value;
            forall id :: id in w.mounts[m].phase.todo ==>
              id in w.created && w.created[id].owner == m
              && forall k :: 0 <= k < |w.mounts| ==> id !in Owned(w.mounts[k])
  {
    InvHolds(s, steps);
    var w := After(s, steps).value;
    assert MountSound(s, w, m, w.mounts[m]);
    forall id, k | id in w.mounts[m].phase.todo && 0 <= k < |w.mounts| ensures id !in Owned(w.mounts[k]) {
      assert MountSound(s, w, k, w.mounts[k]);
    }
  }

  /** A handed-out credential with a record leaves the cloud only by its own mount's revoke or
      purge, in every run. */
  lemma HandedOutSurvives(s: Settings, steps: seq<Step>, m: nat, id: string)
    requires WellSet(s) && s.delay + s.skew <= s.hold && After(s, steps).Some?
    requires var w := After(s, steps).value; m < |w.mounts| && id in w.mounts[m].records && id !in w.revoked
    ensures id in After(s, steps).value.cloud
  {
    InvHolds(s, steps);
    var w := After(s, steps).value;
    assert MountAlive(s, w, w.mounts[m]) && MountSound(s, w, m, w.mounts[m]);
  }

  /** A rotation successor stored as a minter leaves the cloud only by its own mount's sweep. */
  lemma SuccessorSurvives(s: Settings, steps: seq<Step>, m: nat, id: string)
    requires WellSet(s) && s.delay + s.skew <= s.hold && After(s, steps).Some?
    requires var w := After(s, steps).value;
             m < |w.mounts| && id in w.mounts[m].minterIds && id in w.created && id !in w.revoked
    ensures id in After(s, steps).value.cloud
  {
    InvHolds(s, steps);
    assert MountAlive(s, After(s, steps).value, After(s, steps).value.mounts[m]);
  }

  function Wait(s: Settings): nat {
    if s.hold < s.skew then 0 else s.hold - s.skew
  }

  function RaceClient(s: Settings): Client
    requires |s.instances| > 0
  {
    Client(0, OwnerTag.CredentialName(s.instances[0], "r", "q"), 1 + s.skew, 1)
  }

  function RaceListing(s: Settings): seq<Entity>
    requires |s.instances| > 0
  {
    [Entity("x", RaceClient(s).name, 1, 0)]
  }

  /** The run that goes wrong when a record can be written after the hold: created and reported as
      early as the clocks allow, listed and found unowned, then tracked, handed out, and deleted. */
  function Race(s: Settings): seq<Step>
    requires |s.instances| > 0
  {
    [Tick(s.skew), Create(0, "x", "r", "q", 1), Tick(Wait(s)),
     StartPass(0, Config(1, s.hold, false)), ListCloud(0, RaceListing(s)), ReadOwned(0),
     Track(0, "x"), HandOut(0, "x")]
  }

  lemma AfterNext(s: Settings, steps: seq<Step>, n: nat)
    requires n < |steps| && After(s, steps[..n]).Some? && Enabled(s, After(s, steps[..n]).value, steps[n])
    ensures After(s, steps[..n + 1]) == Some(Next(s, After(s, steps[..n]).value, steps[n]))
  {
    assert steps[..n + 1][..n] == steps[..n];
  }

  lemma RaceAttempts(s: Settings, now: Time)
    requires |s.instances| > 0 && now == 1 + s.skew + Wait(s)
    ensures Ids(Pass({}, now, Config(1, s.hold, false)).Attempts(RaceListing(s))) == ["x"]
  {
    var p := Pass({}, now, Config(1, s.hold, false));
    var l := RaceListing(s);
    p.AttemptsNext(l, 0);
    assert l[..1] == l && l[..0] == [];
    assert p.Orphans([], false) == [];
  }

  lemma RaceOpens(s: Settings)
    requires |s.instances| > 0
    ensures var steps := Race(s);
            && |steps| == 8 && steps[..0] == [] && steps[0] == Tick(s.skew) && steps[1] == Create(0, "x", "r", "q", 1)
            && steps[2] == Tick(Wait(s)) && steps[3] == StartPass(0, Config(1, s.hold, false))
  {}

  lemma RaceStarts(s: Settings)
    requires WellSet(s)
    ensures var r := After(s, Race(s)[..4]);
            && r.Some?
            && var w := r.value; var now := 1 + s.skew + Wait(s);
               && w.clock == now && w.created == map["x" := RaceClient(s)]
               && |w.mounts| == |s.instances|
               && w.mounts[0] == Mount({}, {}, {"x"}, {}, Started(now, Config(1, s.hold, false)))
  {
    var steps := Race(s);
    RaceOpens(s);
    hide Race;
    AfterNext(s, steps, 0);
    AfterNext(s, steps, 1);
    AfterNext(s, steps, 2);
    AfterNext(s, steps, 3);
  }

  lemma RaceIsListed(s: Settings)
    requires WellSet(s)
    ensures var r := After(s, Race(s)[..5]);
            && r.Some?
            && var w := r.value; var now := 1 + s.skew + Wait(s);
               && w.clock == now && w.created == map["x" := RaceClient(s)]
               && |w.mounts| == |s.instances|
               && w.mounts[0] == Mount({}, {}, {"x"}, {}, Listed(now, Config(1, s.hold, false), RaceListing(s)))
  {
    RaceStarts(s);
    hide After;
    OwnerTag.OwnsExactly(s.instances[0], s.instances[0], "r", "q");
    assert Lists(s, After(s, Race(s)[..4]).value, 0, RaceListing(s));
    AfterNext(s, Race(s), 4);
  }

  lemma RaceIsRead(s: Settings)
    requires WellSet(s)
    ensures var r := After(s, Race(s)[..6]);
            && r.Some?
            && var w := r.value;
               && w.clock == 1 + s.skew + Wait(s) && w.created == map["x" := RaceClient(s)]
               && |w.mounts| == |s.instances|
               && w.mounts[0] == Mount({}, {}, {"x"}, {}, Deleting(["x"]))
  {
    RaceIsListed(s);
    var w := After(s, Race(s)[..5]).value;
    RaceAttempts(s, w.clock);
    assert Owned(w.mounts[0]) == {};
    AfterNext(s, Race(s), 5);
  }

  lemma ShortHoldIsUnsafe(s: Settings)
    requires WellSet(s) && s.hold < s.delay + s.skew
    ensures !Safe(s)
  {
    var steps := Race(s);
    RaceIsRead(s);
    AfterNext(s, steps, 6);
    var tracked := After(s, steps[..7]).value.mounts[0];
    assert tracked == Mount({"x"}, {}, {}, {"x"}, Deleting(["x"]));
    AfterNext(s, steps, 7);
    assert steps[..8] == steps;
    var w := After(s, steps).value;
    assert w.mounts[0] == Mount({"x"}, {}, {}, {}, Deleting(["x"])) && "x" in w.handedOut;
    assert HarmfulDelete(s, w, DeleteNext(0, true));
  }

  /** Reconciliation never deletes a handed-out, tracked credential, in any interleaving, exactly
      when the confirmation hold covers the longest create-to-track delay and the disagreement of
      the clocks together. */
  lemma SafeExactly(s: Settings)
    requires WellSet(s)
    ensures Safe(s) <==> s.delay + s.skew <= s.hold
  {
    if s.delay + s.skew <= s.hold {
      forall steps, step | After(s, steps).Some? ensures !HarmfulDelete(s, After(s, steps).value, step) {
        var w := After(s, steps).value;
        if HarmfulDelete(s, w, step) {
          InvHolds(s, steps);
          DeletesOnlyOwnUntracked(s, steps, step.m);
        }
      }
    } else {
      ShortHoldIsUnsafe(s);
    }
  }
}
