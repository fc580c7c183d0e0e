/** The cap on live credentials per minter, counted from tracking records without a lock: reads of
    credentials list the records, read them one by one, choose a minter with room, mint, and only
    then write their own record. */
module Capacity {
  import opened Common
  import opened Order

  /** What reading a listed record finds. */
  datatype Stored = Missing | Unreadable | Record(minter: string)

  datatype State = State(limit: int, used: map<string, nat>) {
    predicate Enforced() {
      limit > 0
    }

    function UsedBy(minter: string): nat {
      if minter in used then used[minter] else 0
    }

    predicate HasRoom(minter: string) {
      !Enforced() || UsedBy(minter) < limit
    }
  }

  /** The minter a record is counted against: an unreadable one counts against the empty id. */
  predicate CountsFor(stored: Stored, minter: string) {
    match stored
    case Missing => false
    case Unreadable => minter == ""
    case Record(m) => minter == m
  }

  function CountIn(ids: seq<string>, read: string -> Stored, minter: string): nat {
    if ids == [] then 0
    else CountIn(ids[..|ids| - 1], read, minter) + (if CountsFor(read(ids[|ids| - 1]), minter) then 1 else 0)
  }

  function Bump(used: map<string, nat>, minter: string): map<string, nat> {
    used[minter := (if minter in used then used[minter] else 0) + 1]
  }

  /** Without a limit nothing is listed and everything has room. */
  method Snapshot(ids: seq<string>, read: string -> Stored, limit: int) returns (state: State)
    ensures state.limit == limit
    ensures limit > 0 ==> forall minter :: state.UsedBy(minter) == CountIn(ids, read, minter)
    ensures limit > 0 ==> forall minter :: state.HasRoom(minter) <==> CountIn(ids, read, minter) < limit
    ensures limit <= 0 ==> forall minter :: state.HasRoom(minter)
  {
    state := State(limit, map[]);
    if limit <= 0 { return; }
    for i := 0 to |ids|
      invariant state.limit == limit
      invariant forall minter :: state.UsedBy(minter) == CountIn(ids[..i], read, minter)
    {
      assert ids[..i + 1][..i] == ids[..i];
      match read(ids[i])
      case Missing => continue;
      case Unreadable => state := state.(used := Bump(state.used, ""));
      case Record(minter) => state := state.(used := Bump(state.used, minter));
    }
    assert ids[..|ids|] == ids;
  }

  /** A count is the number of records read that name the minter; what cannot be parsed is held
      against the minter without a name. */
  lemma {:induction false} CountIsOfRecords(ids: seq<string>, read: string -> Stored, minter: string)
    ensures CountIn(ids, read, minter) ==
            |set i | 0 <= i < |ids| && (read(ids[i]) == Record(minter) || (minter == "" && read(ids[i]) == Unreadable))|
  {
    var named := set i | 0 <= i < |ids|
                         && (read(ids[i]) == Record(minter) || (minter == "" && read(ids[i]) == Unreadable));
    if ids == [] {
      assert named == {};
    } else {
      var before, last := ids[..|ids| - 1], |ids| - 1;
      var earlier := set i | 0 <= i < |before|
                             && (read(before[i]) == Record(minter) || (minter == "" && read(before[i]) == Unreadable));
      CountIsOfRecords(before, read, minter);
      assert forall i :: 0 <= i < last ==> before[i] == ids[i];
      assert named == earlier + (if last in named then {last} else {});
    }
  }

  // ----- reads in flight -----------------------------------------------------------------

  /** Reads are numbered as they list; a read tracks at most one credential, known by its number. */
  datatype Phase =
    | Counting(listed: seq<nat>, next: nat, used: map<string, nat>)
    | Chosen(minter: string)

  /** What was there when a read listed: the records, and the reads in flight. The minter it chose
      is kept once it has chosen. */
  datatype Begun = Begun(records: set<nat>, cohort: set<nat>)

  datatype World = World(
    records: map<nat, string>, inFlight: map<nat, Phase>, started: nat, history: map<nat, Begun>)

  datatype Settings = Settings(limit: nat, flights: nat)

  datatype Step =
    | Begin(listed: seq<nat>)
    | ReadOne(r: nat)
    | Choose(r: nat, minter: string)
    | Track(r: nat)
    | Fail(r: nat)
    | Revoke(id: nat)

  function Init(): World {
    World(map[], map[], 0, map[])
  }

  ghost predicate Enabled(s: Settings, w: World, step: Step) {
    match step
    case Begin(listed) =>
      |w.inFlight| < s.flights && Distinct(listed) && forall id :: id in listed <==> id in w.records
    case ReadOne(r) => r in w.inFlight && w.inFlight[r].Counting? && w.inFlight[r].next < |w.inFlight[r].listed|
    case Choose(r, minter) =>
      && r in w.inFlight && w.inFlight[r].Counting? && w.inFlight[r].next == |w.inFlight[r].listed|
      && State(s.limit, w.inFlight[r].used).HasRoom(minter)
    case Track(r) => r in w.inFlight && w.inFlight[r].Chosen?
    case Fail(r) => r in w.inFlight
    case Revoke(id) => id in w.records
  }

  function Next(s: Settings, w: World, step: Step): World
    requires step.ReadOne? || step.Choose? || step.Track? ==> step.r in w.inFlight
    requires step.ReadOne? ==> w.inFlight[step.r].Counting? && w.inFlight[step.r].next < |w.inFlight[step.r].listed|
    requires step.Track? ==> w.inFlight[step.r].Chosen?
  {
    match step
    case Begin(listed) =>
      World(w.records, w.inFlight[w.started := Counting(listed, 0, map[])], w.started + 1,
            w.history[w.started := Begun(w.records.Keys, w.inFlight.Keys)])
    case ReadOne(r) =>
      var p := w.inFlight[r];
      var id := p.listed[p.next];
      var used := if id in w.records then Bump(p.used, w.records[id]) else p.used;
      w.(inFlight := w.inFlight[r := Counting(p.listed, p.next + 1, used)])
    case Choose(r, minter) => w.(inFlight := w.inFlight[r := Chosen(minter)])
    case Track(r) =>
      w.(records := w.records[r := w.inFlight[r].minter], inFlight := w.inFlight - {r})
    case Fail(r) => w.(inFlight := w.inFlight - {r})
    case Revoke(id) => w.(records := w.records - {id})
  }

  ghost function After(s: Settings, steps: seq<Step>): Option<World> {
    if steps == [] then Some(Init())
    else
      var before, step := After(s, steps[..|steps| - 1]), steps[|steps| - 1];
      if before.Some? && Enabled(s, before.value, step) then Some(Next(s, before.value, step)) else None
  }

  // ----- the invariant -------------------------------------------------------------------

  function Held(records: map<nat, string>, ids: set<nat>, minter: string): set<nat> {
    set id | id in ids && id in records && records[id] == minter
  }

  /** A read's count covers what it has read and is still there; one that has chosen found less
      than the limit among what it listed. */
  ghost predicate PhaseSound(s: Settings, records: map<nat, string>, listed: set<nat>, p: Phase) {
    match p
    case Counting(ids, next, used) =>
      && next <= |ids| && Distinct(ids) && Elements(ids) == listed
      && forall minter ::
           |Held(records, Elements(ids[..next]), minter)| <= State(s.limit, used).UsedBy(minter)
    case Chosen(minter) => |Held(records, listed, minter)| < s.limit
  }

  /** What another read's credential, or the read itself, was to `q` when it listed. */
  predicate Known(w: World, q: nat, r: nat)
    requires q in w.history
  {
    r >= q || r in w.history[q].records || r in w.history[q].cohort
  }

  ghost predicate Domains(s: Settings, w: World) {
    && (forall q :: q in w.records || q in w.inFlight ==> q in w.history)
    && (forall q :: q in w.history ==> q < w.started)
    && (forall q :: q in w.records ==> q !in w.inFlight)
    && (forall q :: q in w.history ==> q !in w.history[q].cohort && |w.history[q].cohort| < s.flights)
    && (forall q, id :: q in w.history && id in w.history[q].records ==> id < w.started)
    && |w.inFlight| <= s.flights
  }

  ghost predicate AllKnown(w: World) {
    && (forall q, r :: q in w.history && r in w.records ==> Known(w, q, r))
    && (forall q, r :: q in w.history && r in w.inFlight ==>
          r !in w.history[q].records && (r >= q || r in w.history[q].cohort))
  }

  ghost predicate PhasesSound(s: Settings, w: World)
    requires Domains(s, w)
  {
    forall r :: r in w.inFlight ==> PhaseSound(s, w.records, w.history[r].records, w.inFlight[r])
  }

  /** Every read whose credential is there found its minter below the limit, and of what it counted
      no more is there now. */
  ghost predicate LimitsHeld(s: Settings, w: World)
    requires Domains(s, w)
  {
    forall q :: q in w.records ==> |Held(w.records, w.history[q].records, w.records[q])| < s.limit
  }

  ghost predicate Inv(s: Settings, w: World) {
    Domains(s, w) && AllKnown(w) && PhasesSound(s, w) && LimitsHeld(s, w)
  }

  lemma HeldShrinks(a: map<nat, string>, b: map<nat, string>, ids: set<nat>, minter: string)
    requires forall id :: id in ids && id in b ==> id in a && a[id] == b[id]
    ensures |Held(b, ids, minter)| <= |Held(a, ids, minter)|
  {
    SubsetCount(Held(b, ids, minter), Held(a, ids, minter));
  }

  /** Removing records, or adding one that a read did not list, keeps its phase sound. */
  lemma PhaseKept(s: Settings, a: map<nat, string>, b: map<nat, string>, listed: set<nat>, p: Phase)
    requires PhaseSound(s, a, listed, p)
    requires forall id :: id in listed && id in b ==> id in a && a[id] == b[id]
    ensures PhaseSound(s, b, listed, p)
  {
    match p
    case Counting(ids, next, used) =>
      forall minter ensures |Held(b, Elements(ids[..next]), minter)| <= State(s.limit, used).UsedBy(minter) {
        assert forall id :: id in ids[..next] ==> id in Elements(ids);
        HeldShrinks(a, b, Elements(ids[..next]), minter);
      }
    case Chosen(minter) => HeldShrinks(a, b, listed, minter);
  }

  /** A read that has just listed has counted nothing. */
  lemma PhaseStarts(s: Settings, records: map<nat, string>, listed: seq<nat>)
    requires Distinct(listed)
    ensures PhaseSound(s, records, Elements(listed), Counting(listed, 0, map[]))
  {
    assert listed[..0] == [];
    forall minter ensures Held(records, Elements(listed[..0]), minter) == {} {}
  }

  lemma PhaseCounts(s: Settings, records: map<nat, string>, listed: set<nat>, p: Phase)
    requires PhaseSound(s, records, listed, p) && p.Counting? && p.next < |p.listed|
    ensures var id := p.listed[p.next];
            var used := if id in records then Bump(p.used, records[id]) else p.used;
            PhaseSound(s, records, listed, Counting(p.listed, p.next + 1, used))
  {
    hide Bump, Held, Distinct;
    var id := p.listed[p.next];
    var used := if id in records then Bump(p.used, records[id]) else p.used;
    var before, after := Elements(p.listed[..p.next]), Elements(p.listed[..p.next + 1]);
    assert p.listed[..p.next + 1] == p.listed[..p.next] + [id];
    assert after == before + {id};
    forall minter ensures |Held(records, after, minter)| <= State(s.limit, used).UsedBy(minter) {
      assert |Held(records, before, minter)| <= State(s.limit, p.used).UsedBy(minter);
      HeldGrows(records, before, id, minter);
      if id in records { BumpCounts(s.limit, p.used, records[id], minter); }
    }
  }

  lemma HeldGrows(records: map<nat, string>, ids: set<nat>, id: nat, minter: string)
    ensures |Held(records, ids + {id}, minter)| <=
            |Held(records, ids, minter)| + (if id in records && records[id] == minter then 1 else 0)
  {
    if id in records && records[id] == minter {
      assert Held(records, ids + {id}, minter) == Held(records, ids, minter) + {id};
    } else {
      assert Held(records, ids + {id}, minter) == Held(records, ids, minter);
    }
  }

  lemma BumpCounts(limit: int, used: map<string, nat>, bumped: string, minter: string)
    ensures State(limit, Bump(used, bumped)).UsedBy(minter)
         == State(limit, used).UsedBy(minter) + (if bumped == minter then 1 else 0)
  {}

  lemma PhaseChooses(s: Settings, records: map<nat, string>, listed: set<nat>, p: Phase, minter: string)
    requires PhaseSound(s, records, listed, p) && p.Counting? && p.next == |p.listed| && s.limit > 0
    requires State(s.limit, p.used).HasRoom(minter)
    ensures PhaseSound(s, records, listed, Chosen(minter))
  {
    assert p.listed[..p.next] == p.listed;
    assert |Held(records, Elements(p.listed), minter)| <= State(s.limit, p.used).UsedBy(minter);
  }

  lemma BeginKeepsDomains(s: Settings, w: World, step: Step)
    requires Domains(s, w) && Enabled(s, w, step) && step.Begin?
    ensures Domains(s, Next(s, w, step))
  {
    hide Distinct;
    SetKeyCount(w.inFlight, w.started, Counting(step.listed, 0, map[]));
    assert |w.inFlight.Keys| == |w.inFlight|;
  }

  lemma BeginKeepsKnown(s: Settings, w: World, step: Step)
    requires Domains(s, w) && AllKnown(w) && Enabled(s, w, step) && step.Begin?
    ensures AllKnown(Next(s, w, step))
  {
    hide Distinct;
    var w', q := Next(s, w, step), w.started;
    forall p, r | p in w'.history && r in w'.inFlight
      ensures r !in w'.history[p].records && (r >= p || r in w'.history[p].cohort)
    {
      if p in w.history && r == q { assert q !in w.history[p].records; }
    }
    forall p, r | p in w'.history && r in w'.records ensures Known(w', p, r) {
      if p in w.history { assert Known(w, p, r); }
    }
  }

  lemma CountingKeepsDomains(s: Settings, w: World, step: Step)
    requires Domains(s, w) && Enabled(s, w, step) && (step.ReadOne? || step.Choose?)
    ensures Domains(s, Next(s, w, step))
  {
    hide Distinct, Bump, State.HasRoom;
    var w' := Next(s, w, step);
    SetKeyCount(w.inFlight, step.r, w'.inFlight[step.r]);
  }

  lemma EndingKeepsDomains(s: Settings, w: World, step: Step)
    requires Domains(s, w) && Enabled(s, w, step) && (step.Track? || step.Fail? || step.Revoke?)
    ensures Domains(s, Next(s, w, step))
  {
    hide Distinct, Bump, State.HasRoom;
    if !step.Revoke? { DropKeyCount(w.inFlight, step.r); }
  }

  /** The steps of reads that have begun, and revokes. */
  lemma LaterStepKeepsKnown(s: Settings, w: World, step: Step)
    requires Domains(s, w) && AllKnown(w) && Enabled(s, w, step) && !step.Begin?
    ensures AllKnown(Next(s, w, step))
  {
    hide Distinct, Bump, State.HasRoom;
    var w' := Next(s, w, step);
    assert w'.history == w.history;
    forall q, r | q in w.history && r in w'.records ensures Known(w', q, r) {
      if r in w.records { assert Known(w, q, r); }
    }
  }

  lemma CountedRecordsKept(s: Settings, w: World, step: Step, r: nat)
    requires Domains(s, w) && AllKnown(w) && Enabled(s, w, step) && r in w.history
    ensures var after := Next(s, w, step).records;
            forall id :: id in w.history[r].records && id in after ==> id in w.records && w.records[id] == after[id]
  {
    hide Distinct, Bump, Known;
  }

  lemma PhaseNext(s: Settings, w: World, step: Step, r: nat)
    requires s.limit > 0 && Inv(s, w) && Enabled(s, w, step) && r in Next(s, w, step).inFlight && r in w.inFlight
    ensures var w' := Next(s, w, step);
            PhaseSound(s, w'.records, w'.history[r].records, w'.inFlight[r])
  {
    CountedRecordsKept(s, w, step, r);
    hide Bump, Held, Distinct, AllKnown, LimitsHeld;
    var w', counted := Next(s, w, step), w.history[r].records;
    assert PhaseSound(s, w.records, counted, w.inFlight[r]) && w'.history[r].records == counted;
    if step.ReadOne? && r == step.r {
      PhaseCounts(s, w.records, counted, w.inFlight[r]);
    } else if step.Choose? && r == step.r {
      PhaseChooses(s, w.records, counted, w.inFlight[r], step.minter);
    } else {
      PhaseKept(s, w.records, w'.records, counted, w.inFlight[r]);
    }
  }

  lemma PhasesKept(s: Settings, w: World, step: Step)
    requires s.limit > 0 && Inv(s, w) && Enabled(s, w, step) && Domains(s, Next(s, w, step))
    ensures PhasesSound(s, Next(s, w, step))
  {
    hide Bump, Held, AllKnown, LimitsHeld, PhaseSound;
    var w' := Next(s, w, step);
    forall r | r in w'.inFlight ensures PhaseSound(s, w'.records, w'.history[r].records, w'.inFlight[r]) {
      if r in w.inFlight {
        PhaseNext(s, w, step, r);
      } else {
        assert Elements(step.listed) == w.records.Keys;
        PhaseStarts(s, w.records, step.listed);
      }
    }
  }

  lemma LimitsKept(s: Settings, w: World, step: Step)
    requires Inv(s, w) && Enabled(s, w, step) && Domains(s, Next(s, w, step))
    ensures LimitsHeld(s, Next(s, w, step))
  {
    hide Distinct, Bump, Known;
    var w' := Next(s, w, step);
    forall q | q in w'.records ensures |Held(w'.records, w'.history[q].records, w'.records[q])| < s.limit {
      var counted := w.history[q].records;
      if step.Track? && q == step.r {
        assert PhaseSound(s, w.records, counted, w.inFlight[q]);
      } else {
        assert |Held(w.records, counted, w.records[q])| < s.limit;
      }
      CountedRecordsKept(s, w, step, q);
      HeldShrinks(w.records, w'.records, counted, w'.records[q]);
    }
  }

  lemma {:induction false} InvHolds(s: Settings, steps: seq<Step>)
    requires s.limit > 0 && After(s, steps).Some?
    ensures Inv(s, After(s, steps).value)
  {
    if steps != [] {
      var before, step := steps[..|steps| - 1], steps[|steps| - 1];
      var w := After(s, before).value;
      InvHolds(s, before);
      if step.Begin? {
        BeginKeepsDomains(s, w, step);
        BeginKeepsKnown(s, w, step);
      } else {
        if step.ReadOne? || step.Choose? { CountingKeepsDomains(s, w, step); } else { EndingKeepsDomains(s, w, step); }
        LaterStepKeepsKnown(s, w, step);
      }
      PhasesKept(s, w, step);
      LimitsKept(s, w, step);
    }
  }

  // ----- the bound -----------------------------------------------------------------------

  lemma {:induction false} Largest(ids: set<nat>) returns (q: nat)
    requires ids != {}
    ensures q in ids && forall id :: id in ids ==> id <= q
  {
    var x :| x in ids;
    if ids == {x} { return x; }
    var rest := Largest(ids - {x});
    q := if x > rest then x else rest;
    forall id | id in ids ensures id <= q { assert id == x || id in ids - {x}; }
  }

  lemma HeldIsBounded(s: Settings, w: World, minter: string)
    requires s.limit > 0 && s.flights > 0 && Inv(s, w)
    ensures |Held(w.records, w.records.Keys, minter)| <= s.limit - 1 + s.flights
  {
    var all := Held(w.records, w.records.Keys, minter);
    if all != {} {
      var q := Largest(all);
      var seen, cohort := Held(w.records, w.history[q].records, minter), w.history[q].cohort;
      forall id | id in all ensures id in seen + cohort + {q} { assert Known(w, q, id); }
      assert |seen| < s.limit && |cohort| < s.flights;
      hide Held, Inv;
      SubsetCount(all, seen + cohort + {q});
      UnionCount(seen, cohort);
      UnionCount(seen + cohort, {q});
    }
  }

  /** However reads interleave, with at most `flights` of them in flight a minter never holds more
      than the limit and the reads that may all have counted before any of them tracked. */
  lemma CapacityHolds(s: Settings, steps: seq<Step>, minter: string)
    requires s.limit > 0 && s.flights > 0 && After(s, steps).Some?
    ensures var w := After(s, steps).value;
            |Held(w.records, w.records.Keys, minter)| <= s.limit - 1 + s.flights
  {
    InvHolds(s, steps);
    HeldIsBounded(s, After(s, steps).value, minter);
  }

  // ----- the bound is reached ------------------------------------------------------------

  function Upto(n: nat): seq<nat> {
    seq(n, i => i)
  }

  lemma UptoMembers(n: nat)
    ensures Distinct(Upto(n)) && forall id: nat :: id in Upto(n) <==> id < n
  {
    forall id: nat ensures id in Upto(n) <==> id < n {
      if id < n { assert Upto(n)[id] == id; }
    }
  }

  /** The first `n` reads have each tracked a credential of the minter "m". */
  function Full(n: nat): map<nat, string> {
    map id | id in Upto(n) :: "m"
  }

  /** Of the reads from `from` to `end`, those before `chosen` have chosen, the rest have only
      listed `n` records. */
  function Waiting(n: nat, from: nat, chosen: nat, end: nat): map<nat, Phase> {
    map r | r in Upto(end) && r >= from :: if r < chosen then Chosen("m") else Counting(Upto(n), 0, map[])
  }

  lemma FullMembers(n: nat)
    ensures forall id: nat :: id in Full(n) <==> id < n
    ensures forall id: nat :: id in Full(n) ==> Full(n)[id] == "m"
  {
    UptoMembers(n);
  }

  lemma FullNext(n: nat)
    ensures Full(n)[n := "m"] == Full(n + 1) && Full(0) == map[]
  {
    FullMembers(n);
    FullMembers(n + 1);
    hide Upto;
  }

  lemma WaitingMembers(n: nat, from: nat, chosen: nat, end: nat)
    ensures forall r: nat :: r in Waiting(n, from, chosen, end) <==> from <= r < end
    ensures forall r: nat :: r in Waiting(n, from, chosen, end) ==>
              Waiting(n, from, chosen, end)[r] == if r < chosen then Chosen("m") else Counting(Upto(n), 0, map[])
  {
    UptoMembers(end);
  }

  lemma WaitingBegins(n: nat, from: nat, end: nat)
    requires from <= end
    ensures end !in Waiting(n, from, from, end)
    ensures Waiting(n, from, from, end)[end := Counting(Upto(n), 0, map[])] == Waiting(n, from, from, end + 1)
  {
    WaitingMembers(n, from, from, end);
    WaitingMembers(n, from, from, end + 1);
    hide Waiting, Upto;
  }

  lemma WaitingChooses(n: nat, from: nat, chosen: nat, end: nat)
    requires from <= chosen < end
    ensures chosen in Waiting(n, from, chosen, end)
    ensures Waiting(n, from, chosen, end)[chosen] == Counting(Upto(n), 0, map[])
    ensures Waiting(n, from, chosen, end)[chosen := Chosen("m")] == Waiting(n, from, chosen + 1, end)
  {
    WaitingMembers(n, from, chosen, end);
    WaitingMembers(n, from, chosen + 1, end);
    hide Waiting, Upto;
  }

  lemma WaitingTracks(n: nat, from: nat, end: nat)
    requires from < end
    ensures from in Waiting(n, from, end, end) && Waiting(n, from, end, end)[from] == Chosen("m")
    ensures Waiting(n, from, end, end) - {from} == Waiting(n, from + 1, end, end)
  {
    WaitingMembers(n, from, end, end);
    WaitingMembers(n, from + 1, end, end);
    hide Waiting, Upto;
  }

  lemma NobodyWaits(n: nat, chosen: nat, end: nat)
    ensures Waiting(n, end, chosen, end) == map[]
  {
    WaitingMembers(n, end, chosen, end);
  }

  ghost predicate At(s: Settings, steps: seq<Step>, records: map<nat, string>,
                     inFlight: map<nat, Phase>, started: nat) {
    var w := After(s, steps);
    w.Some? && w.value.records == records && w.value.inFlight == inFlight && w.value.started == started
  }

  lemma AfterNext(s: Settings, steps: seq<Step>, step: Step)
    requires After(s, steps).Some? && Enabled(s, After(s, steps).value, step)
    ensures After(s, steps + [step]) == Some(Next(s, After(s, steps).value, step))
  {
    assert (steps + [step])[..|steps + [step]| - 1] == steps;
  }

  /** One read counts `n` records of "m" and chooses it. */
  lemma CountsAndChooses(s: Settings, steps: seq<Step>, n: nat, r: nat, inFlight: map<nat, Phase>, started: nat)
    returns (next: seq<Step>)
    requires n < s.limit && At(s, steps, Full(n), inFlight, started)
    requires r in inFlight && inFlight[r] == Counting(Upto(n), 0, map[])
    ensures At(s, next, Full(n), inFlight[r := Chosen("m")], started)
  {
    hide After;
    next := steps;
    var j, used: map<string, nat> := 0, map[];
    while j < n
      invariant 0 <= j <= n && used == (if j == 0 then map[] else map["m" := j])
      invariant At(s, next, Full(n), inFlight[r := Counting(Upto(n), j, used)], started)
    {
      AfterNext(s, next, ReadOne(r));
      next := next + [ReadOne(r)];
      used := Bump(used, "m");
      assert inFlight[r := Counting(Upto(n), j, used)][r := Counting(Upto(n), j + 1, used)]
          == inFlight[r := Counting(Upto(n), j + 1, used)];
      j := j + 1;
    }
    assert State(s.limit, used).UsedBy("m") == n;
    AfterNext(s, next, Choose(r, "m"));
    next := next + [Choose(r, "m")];
  }

  lemma Begins(s: Settings, steps: seq<Step>, n: nat, inFlight: map<nat, Phase>, started: nat)
    returns (next: seq<Step>)
    requires At(s, steps, Full(n), inFlight, started) && |inFlight| < s.flights
    ensures At(s, next, Full(n), inFlight[started := Counting(Upto(n), 0, map[])], started + 1)
  {
    UptoMembers(n);
    FullMembers(n);
    hide After, Full, Upto, Distinct;
    AfterNext(s, steps, Begin(Upto(n)));
    next := steps + [Begin(Upto(n))];
  }

  lemma Tracks(s: Settings, steps: seq<Step>, n: nat, inFlight: map<nat, Phase>, started: nat)
    returns (next: seq<Step>)
    requires At(s, steps, Full(n), inFlight, started) && n in inFlight && inFlight[n] == Chosen("m")
    ensures At(s, next, Full(n + 1), inFlight - {n}, started)
  {
    FullNext(n);
    hide After, Full;
    AfterNext(s, steps, Track(n));
    next := steps + [Track(n)];
  }

  /** One read after the other, up to one below the limit. */
  lemma FillsUp(s: Settings, n: nat) returns (steps: seq<Step>)
    requires s.flights > 0 && n <= s.limit
    ensures At(s, steps, Full(n), map[], n)
  {
    steps := [];
    FullNext(0);
    assert At(s, [], Full(0), map[], 0);
    hide After, At, Full, Upto;
    var k := 0;
    while k < n
      invariant 0 <= k <= n && At(s, steps, Full(k), map[], k)
    {
      var listed: Phase := Counting(Upto(k), 0, map[]);
      steps := Begins(s, steps, k, map[], k);
      steps := CountsAndChooses(s, steps, k, k, map[k := listed], k + 1);
      assert map[k := listed][k := Chosen("m")] == map[k := Chosen("m")];
      steps := Tracks(s, steps, k, map[k := Chosen("m")], k + 1);
      assert map[k := Chosen("m")] - {k} == map[];
      k := k + 1;
    }
  }

  lemma {:induction false} WaitingCount(n: nat, from: nat, end: nat)
    requires from <= end
    ensures |Waiting(n, from, from, end)| == end - from
    decreases end
  {
    NobodyWaits(n, from, from);
    hide Waiting, Upto;
    if from < end {
      WaitingBegins(n, from, end - 1);
      WaitingCount(n, from, end - 1);
      SetKeyCount(Waiting(n, from, from, end - 1), end - 1, Counting(Upto(n), 0, map[]));
    }
  }

  lemma NextLists(s: Settings, steps: seq<Step>, n: nat, end: nat) returns (next: seq<Step>)
    requires n <= end < n + s.flights && At(s, steps, Full(n), Waiting(n, n, n, end), end)
    ensures At(s, next, Full(n), Waiting(n, n, n, end + 1), end + 1)
  {
    WaitingCount(n, n, end);
    WaitingBegins(n, n, end);
    hide At, Full, Waiting, Upto;
    next := Begins(s, steps, n, Waiting(n, n, n, end), end);
  }

  /** Then as many as may be in flight list before any of them chooses. */
  lemma AllList(s: Settings, n: nat) returns (steps: seq<Step>)
    requires s.flights > 0 && n <= s.limit
    ensures At(s, steps, Full(n), Waiting(n, n, n, n + s.flights), n + s.flights)
  {
    steps := FillsUp(s, n);
    NobodyWaits(n, n, n);
    hide At, Full, Waiting, Upto;
    var k := 0;
    while k < s.flights
      invariant 0 <= k <= s.flights && At(s, steps, Full(n), Waiting(n, n, n, n + k), n + k)
    {
      steps := NextLists(s, steps, n, n + k);
      k := k + 1;
    }
  }

  lemma AllChoose(s: Settings, n: nat) returns (steps: seq<Step>)
    requires s.flights > 0 && n < s.limit
    ensures At(s, steps, Full(n), Waiting(n, n, n + s.flights, n + s.flights), n + s.flights)
  {
    steps := AllList(s, n);
    hide At, Full, Waiting, Upto;
    var k, end := 0, n + s.flights;
    while k < s.flights
      invariant 0 <= k <= s.flights && At(s, steps, Full(n), Waiting(n, n, n + k, end), end)
    {
      WaitingChooses(n, n, n + k, end);
      steps := CountsAndChooses(s, steps, n, n + k, Waiting(n, n, n + k, end), end);
      k := k + 1;
    }
  }

  lemma AllTrack(s: Settings, n: nat) returns (steps: seq<Step>)
    requires s.flights > 0 && n < s.limit
    ensures At(s, steps, Full(n + s.flights), map[], n + s.flights)
  {
    steps := AllChoose(s, n);
    hide At, Full, Waiting, Upto;
    var k, end := 0, n + s.flights;
    while k < s.flights
      invariant 0 <= k <= s.flights && At(s, steps, Full(n + k), Waiting(n, n + k, end, end), end)
    {
      WaitingTracks(n, n + k, end);
      steps := Tracks(s, steps, n + k, Waiting(n, n + k, end, end), end);
      k := k + 1;
    }
    NobodyWaits(n, end, end);
  }

  lemma {:induction false} FullHolds(n: nat)
    ensures |Held(Full(n), Full(n).Keys, "m")| == n
  {
    FullMembers(n);
    if n > 0 {
      FullHolds(n - 1);
      FullMembers(n - 1);
      hide Full;
      var held := Held(Full(n - 1), Full(n - 1).Keys, "m");
      assert n - 1 !in held;
      assert Held(Full(n), Full(n).Keys, "m") == held + {n - 1};
    } else {
      hide Full;
      assert Held(Full(n), Full(n).Keys, "m") == {};
    }
  }

  /** The bound cannot be lowered: for every limit and every number of reads in flight some run
      reaches it, when all of them count before any of them tracks. */
  lemma BoundIsReached(s: Settings) returns (steps: seq<Step>)
    requires s.limit > 0 && s.flights > 0
    ensures var w := After(s, steps);
            w.Some? && |Held(w.value.records, w.value.records.Keys, "m")| == s.limit - 1 + s.flights
  {
    steps := AllTrack(s, s.limit - 1);
    FullHolds(s.limit - 1 + s.flights);
  }
}
