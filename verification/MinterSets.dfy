/** Minter sets: what makes one valid, how a write carries lifecycle state forward, and what a
    rotation and a retirement sweep make of one. */
module MinterSets {
  import opened Common
  import opened Order

  const DAY: nat := 86_400_000_000_000
  const MIN_MINTER_GAP: nat := 7 * DAY
  const MINTER_SECRET_LIFETIME: nat := 730 * DAY

  datatype Minter = Minter(
    id: string, token: string, expiresAt: Time, neverExpires: bool, createdAt: Time,
    retired: bool, retiredAt: Time, rotationParams: map<string, string>)

  function IsActive(): Minter -> bool {
    (m: Minter) => !m.retired
  }

  function Active(minters: seq<Minter>): seq<Minter> {
    Filter(IsActive(), minters)
  }

  // ----- validity ------------------------------------------------------------------------

  predicate Bounded(m: Minter) {
    m.neverExpires || m.expiresAt != 0
  }

  predicate Apart(a: Minter, b: Minter) {
    a.expiresAt - b.expiresAt >= MIN_MINTER_GAP || b.expiresAt - a.expiresAt >= MIN_MINTER_GAP
  }

  ghost predicate PairwiseApart(minters: seq<Minter>) {
    forall i, j :: 0 <= i < j < |minters| ==> Apart(minters[i], minters[j])
  }

  ghost predicate SomeNeverExpires(minters: seq<Minter>) {
    exists m :: m in minters && m.neverExpires
  }

  /** The rule, in no order: an active minter never expires, or at least two do and every two of
      them expire a minimum gap apart. */
  ghost predicate ValidSet(minters: seq<Minter>) {
    var active := Active(minters);
    && active != []
    && (forall m :: m in active ==> Bounded(m))
    && (SomeNeverExpires(active) || (|active| >= 2 && PairwiseApart(active)))
  }

  function ByExpiry(): (Minter, Minter) -> bool {
    (a: Minter, b: Minter) => a.expiresAt <= b.expiresAt
  }

  lemma ApartCons(m: Minter, rest: seq<Minter>)
    ensures PairwiseApart([m] + rest) <==> PairwiseApart(rest) && forall x :: x in rest ==> Apart(m, x)
  {
    var s := [m] + rest;
    if PairwiseApart(s) {
      forall x | x in rest ensures Apart(m, x) {
        var i :| 0 <= i < |rest| && rest[i] == x;
        assert s[i + 1] == x && s[0] == m;
      }
      forall i, j | 0 <= i < j < |rest| ensures Apart(rest[i], rest[j]) {
        assert s[i + 1] == rest[i] && s[j + 1] == rest[j];
      }
    }
  }

  lemma {:induction false} InsertKeepsApart(m: Minter, s: seq<Minter>)
    ensures PairwiseApart(Insert(ByExpiry(), m, s)) <==> PairwiseApart([m] + s)
  {
    hide PairwiseApart, Apart;
    if s == [] {
      assert [m] + s == [m];
    } else if !ByExpiry()(m, s[0]) {
      var rest := Insert(ByExpiry(), m, s[1..]);
      InsertKeepsApart(m, s[1..]);
      ApartCons(m, s);
      ApartCons(m, s[1..]);
      ApartCons(s[0], s[1..]);
      ApartCons(s[0], rest);
      assert s == [s[0]] + s[1..];
      forall x ensures x in rest <==> x == m || x in s[1..] {
        assert x in rest <==> x in multiset(rest);
      }
      assert m in rest;
      ApartSymmetric(m, s[0]);
    }
  }

  lemma ApartSymmetric(a: Minter, b: Minter)
    ensures Apart(a, b) == Apart(b, a)
  {}

  /** Sorting brings no two minters closer and takes none apart. */
  lemma {:induction false} SortKeepsApart(s: seq<Minter>)
    ensures PairwiseApart(Sort(ByExpiry(), s)) <==> PairwiseApart(s)
  {
    if s != [] {
      var rest := Sort(ByExpiry(), s[1..]);
      SortKeepsApart(s[1..]);
      InsertKeepsApart(s[0], rest);
      ApartCons(s[0], rest);
      ApartCons(s[0], s[1..]);
      assert s == [s[0]] + s[1..];
      forall x ensures x in rest <==> x in s[1..] {
        assert x in rest <==> x in multiset(rest);
      }
    }
  }

  ghost predicate NeighboursApart(s: seq<Minter>, n: nat)
    requires n <= |s|
  {
    forall i :: 1 <= i < n ==> s[i].expiresAt - s[i - 1].expiresAt >= MIN_MINTER_GAP
  }

  lemma {:induction false} NeighboursReach(s: seq<Minter>, i: nat, j: nat)
    requires NeighboursApart(s, |s|) && i < j < |s|
    ensures s[j].expiresAt - s[i].expiresAt >= MIN_MINTER_GAP
    decreases j
  {
    if i < j - 1 { NeighboursReach(s, i, j - 1); }
  }

  /** In expiry order it is enough to look at neighbours. */
  lemma NeighboursSuffice(s: seq<Minter>)
    requires Sorted(ByExpiry(), s)
    ensures NeighboursApart(s, |s|) <==> PairwiseApart(s)
  {
    if NeighboursApart(s, |s|) {
      forall i, j | 0 <= i < j < |s| ensures Apart(s[i], s[j]) { NeighboursReach(s, i, j); }
    } else {
      var i :| 1 <= i < |s| && s[i].expiresAt - s[i - 1].expiresAt < MIN_MINTER_GAP;
      assert ByExpiry()(s[i - 1], s[i]) && !Apart(s[i - 1], s[i]);
    }
  }

  method ActiveMinters(minters: seq<Minter>) returns (active: seq<Minter>)
    ensures active == Active(minters)
  {
    active := [];
    for i := 0 to |minters|
      invariant active == Active(minters[..i])
    {
      FilterNext(IsActive(), minters, i);
      if !minters[i].retired { active := active + [minters[i]]; }
    }
    assert minters[..|minters|] == minters;
  }

  datatype Verdict = Accepted | NoMinters | NoExpiry | TooFew | TooClose

  /** Sorts the minters by expiry and looks at neighbours only. */
  method GapsSuffice(expiring: seq<Minter>) returns (ok: bool)
    ensures ok <==> PairwiseApart(expiring)
  {
    var sorted := Sort(ByExpiry(), expiring);
    SortSorted(ByExpiry(), expiring);
    SortKeepsApart(expiring);
    NeighboursSuffice(sorted);
    hide Sort, PairwiseApart;
    var i := 1;
    while i < |sorted|
      invariant 1 <= i && (i <= |sorted| || |sorted| == 0)
      invariant i <= |sorted| ==> NeighboursApart(sorted, i)
    {
      if sorted[i].expiresAt - sorted[i - 1].expiresAt < MIN_MINTER_GAP { return false; }
      i := i + 1;
    }
    return true;
  }

  method ValidateMinterSet(minters: seq<Minter>) returns (verdict: Verdict)
    ensures verdict == Accepted <==> ValidSet(minters)
    ensures verdict == NoMinters <==> Active(minters) == []
    ensures verdict == NoExpiry <==> exists m :: m in Active(minters) && !m.neverExpires && m.expiresAt == 0
    ensures verdict == TooFew <==>
              |Active(minters)| == 1 && Active(minters)[0].expiresAt != 0 && !Active(minters)[0].neverExpires
  {
    hide PairwiseApart, Active;
    var active := ActiveMinters(minters);
    if |active| == 0 { return NoMinters; }
    var hasNeverExpires := false;
    var expiring: seq<Minter> := [];
    for i := 0 to |active|
      invariant forall m :: m in active[..i] ==> Bounded(m)
      invariant hasNeverExpires == SomeNeverExpires(active[..i])
      invariant !hasNeverExpires ==> expiring == active[..i]
    {
      var m := active[i];
      assert active[..i + 1] == active[..i] + [m];
      assert m in active && m in active[..i + 1];
      if m.neverExpires {
        hasNeverExpires := true;
      } else if m.expiresAt != 0 {
        expiring := expiring + [m];
      } else {
        assert !Bounded(m);
        return NoExpiry;
      }
    }
    assert active[..|active|] == active;
    if hasNeverExpires { return Accepted; }
    if |expiring| < 2 {
      assert active[0] in active;
      return TooFew;
    }
    var ok := GapsSuffice(expiring);
    return if ok then Accepted else TooClose;
  }

  // ----- the rule in the minters' own fields ---------------------------------------------

  /** Two active minters, at different places of the set. */
  predicate ActivePair(minters: seq<Minter>, i: int, j: int) {
    0 <= i < j < |minters| && !minters[i].retired && !minters[j].retired
  }

  ghost predicate PairsApart(minters: seq<Minter>) {
    forall i, j :: ActivePair(minters, i, j) ==>
      || minters[i].expiresAt - minters[j].expiresAt >= 604_800_000_000_000
      || minters[j].expiresAt - minters[i].expiresAt >= 604_800_000_000_000
  }

  lemma PairsOfRest(minters: seq<Minter>)
    requires minters != []
    ensures forall i, j :: 0 < i ==> (ActivePair(minters, i, j) <==> ActivePair(minters[1..], i - 1, j - 1))
  {}

  lemma {:induction false} ActivePairs(minters: seq<Minter>)
    ensures PairwiseApart(Active(minters)) <==> PairsApart(minters)
    ensures |Active(minters)| >= 2 <==> exists i, j :: ActivePair(minters, i, j)
    ensures Active(minters) != [] <==> exists m :: m in minters && !m.retired
  {
    if minters == [] { return; }
    var m, rest := minters[0], minters[1..];
    hide Active, PairwiseApart, PairsApart, ActivePair, Apart;
    ActivePairs(rest);
    assert minters == [m] + rest;
    ActiveApart(m, rest);
    ConsPairs(m, rest);
    ConsSecond(m, rest);
    assert (exists x :: x in [m] + rest && !x.retired) <==> !m.retired || exists x :: x in rest && !x.retired by {
      ConsMember(m, rest);
    }
  }

  lemma ConsMember(m: Minter, rest: seq<Minter>)
    ensures (exists x :: x in [m] + rest && !x.retired) <==> !m.retired || exists x :: x in rest && !x.retired
  {
    assert m in [m] + rest && forall x :: x in rest ==> x in [m] + rest;
  }

  lemma ActiveApart(m: Minter, rest: seq<Minter>)
    ensures PairwiseApart(Active([m] + rest)) <==>
              PairwiseApart(Active(rest)) && (!m.retired ==> forall x :: x in rest && !x.retired ==> Apart(m, x))
    ensures |Active([m] + rest)| == |Active(rest)| + (if m.retired then 0 else 1)
  {
    ActiveOf(m, rest);
    ActiveMembers(rest);
    hide Active, PairwiseApart, Apart;
    if !m.retired { ApartCons(m, Active(rest)); }
  }

  lemma ActiveMembers(minters: seq<Minter>)
    ensures forall m :: m in Active(minters) <==> m in minters && !m.retired
  {
    FilterMembers(IsActive(), minters);
  }

  lemma ActiveOf(m: Minter, rest: seq<Minter>)
    ensures Active([m] + rest) == if m.retired then Active(rest) else [m] + Active(rest)
  {
    assert ([m] + rest)[1..] == rest;
  }

  lemma ConsPairs(m: Minter, rest: seq<Minter>)
    ensures PairsApart([m] + rest) <==>
              PairsApart(rest) && (!m.retired ==> forall x :: x in rest && !x.retired ==> Apart(m, x))
  {
    var s := [m] + rest;
    assert s[1..] == rest;
    PairsOfRest(s);
    if PairsApart(s) {
      forall i, j | ActivePair(rest, i, j) ensures Apart(rest[i], rest[j]) { assert ActivePair(s, i + 1, j + 1); }
      if !m.retired {
        forall x | x in rest && !x.retired ensures Apart(m, x) {
          var k :| 0 <= k < |rest| && rest[k] == x;
          assert ActivePair(s, 0, k + 1);
        }
      }
    } else {
      var i, j :| ActivePair(s, i, j) && !Apart(s[i], s[j]);
      if i > 0 { assert ActivePair(rest, i - 1, j - 1); } else { assert s[j] in rest; }
    }
  }

  lemma ConsSecond(m: Minter, rest: seq<Minter>)
    ensures (exists i, j :: ActivePair([m] + rest, i, j)) <==>
              (exists i, j :: ActivePair(rest, i, j)) || (!m.retired && exists x :: x in rest && !x.retired)
  {
    var s := [m] + rest;
    assert s[1..] == rest;
    PairsOfRest(s);
    if i, j :| ActivePair(s, i, j) {
      if i > 0 { assert ActivePair(rest, i - 1, j - 1); } else { assert s[j] in rest; }
    }
    if i, j :| ActivePair(rest, i, j) { assert ActivePair(s, i + 1, j + 1); }
    if x :| !m.retired && x in rest && !x.retired {
      var k :| 0 <= k < |rest| && rest[k] == x;
      assert ActivePair(s, 0, k + 1);
    }
  }

  /** What makes a set valid: every active minter expires at a known time or never, and one never
      does or at least two are active and every two of them expire seven days apart. */
  lemma ValidOnFields(minters: seq<Minter>)
    ensures ValidSet(minters) <==>
              && (forall m :: m in minters && !m.retired ==> m.neverExpires || m.expiresAt != 0)
              && (|| (exists m :: m in minters && !m.retired && m.neverExpires)
                  || ((exists i, j :: ActivePair(minters, i, j)) && PairsApart(minters)))
  {
    ActivePairs(minters);
    ActiveMembers(minters);
    hide PairsApart, PairwiseApart, Active;
  }

  // ----- ids and lifecycle state ---------------------------------------------------------

  function Ids(minters: seq<Minter>): (r: seq<string>)
    ensures |r| == |minters| && forall i :: 0 <= i < |r| ==> r[i] == minters[i].id
  {
    seq(|minters|, i requires 0 <= i < |minters| => minters[i].id)
  }

  method ValidateMinterIds(minters: seq<Minter>) returns (ok: bool)
    ensures ok <==> Distinct(Ids(minters)) && forall id :: id in Ids(minters) ==> id != "" && id != "<nil>"
  {
    var seen: set<string> := {};
    for i := 0 to |minters|
      invariant forall id :: id in seen <==> id in Ids(minters)[..i]
      invariant Distinct(Ids(minters)[..i]) && forall id :: id in Ids(minters)[..i] ==> id != "" && id != "<nil>"
    {
      var id := minters[i].id;
      assert Ids(minters)[i] == id && id in Ids(minters);
      if id == "" || id == "<nil>" { return false; }
      if id in seen { return false; }
      seen := seen + {id};
    }
    assert Ids(minters)[..|minters|] == Ids(minters);
    return true;
  }

  /** The stored minters by id; of several with one id the last counts. */
  function ById(minters: seq<Minter>): map<string, Minter> {
    if minters == [] then map[]
    else ById(minters[..|minters| - 1])[minters[|minters| - 1].id := minters[|minters| - 1]]
  }

  /** One incoming minter with the lifecycle state stored under its id. */
  function Carried(m: Minter, byId: map<string, Minter>, now: Time): Minter {
    if m.id in byId then
      var previous := byId[m.id];
      m.(createdAt := previous.createdAt, retired := previous.retired, retiredAt := previous.retiredAt,
         rotationParams := if m.rotationParams == map[] then previous.rotationParams else m.rotationParams)
    else if m.createdAt == 0 then m.(createdAt := now)
    else m
  }

  function Preserved(incoming: seq<Minter>, stored: seq<Minter>, now: Time): (r: seq<Minter>)
    ensures |r| == |incoming| && forall i :: 0 <= i < |r| ==> r[i] == Carried(incoming[i], ById(stored), now)
  {
    seq(|incoming|, i requires 0 <= i < |incoming| => Carried(incoming[i], ById(stored), now))
  }

  method PreserveLifecycle(incoming: seq<Minter>, stored: seq<Minter>, now: Time) returns (out: seq<Minter>)
    ensures out == Preserved(incoming, stored, now)
  {
    var byId: map<string, Minter> := map[];
    for i := 0 to |stored|
      invariant byId == ById(stored[..i])
    {
      assert stored[..i + 1][..i] == stored[..i];
      byId := byId[stored[i].id := stored[i]];
    }
    assert stored[..|stored|] == stored;
    out := [];
    for i := 0 to |incoming|
      invariant out == Preserved(incoming, stored, now)[..i]
    {
      var minter := incoming[i];
      if minter.id in byId {
        var previous := byId[minter.id];
        minter := minter.(createdAt := previous.createdAt, retired := previous.retired,
                          retiredAt := previous.retiredAt);
        if minter.rotationParams == map[] { minter := minter.(rotationParams := previous.rotationParams); }
      } else if minter.createdAt == 0 {
        minter := minter.(createdAt := now);
      }
      out := out + [minter];
    }
  }

  lemma {:induction false} ByIdFinds(minters: seq<Minter>, k: nat)
    requires Distinct(Ids(minters)) && k < |minters|
    ensures minters[k].id in ById(minters) && ById(minters)[minters[k].id] == minters[k]
  {
    var n := |minters| - 1;
    if k < n {
      assert forall i :: 0 <= i < n ==> Ids(minters[..n])[i] == Ids(minters)[i];
      assert Ids(minters)[k] != Ids(minters)[n];
      ByIdFinds(minters[..n], k);
    }
  }

  lemma {:induction false} ByIdMisses(minters: seq<Minter>, id: string)
    requires id !in Ids(minters)
    ensures id !in ById(minters)
  {
    if minters != [] {
      var n := |minters| - 1;
      assert Ids(minters)[n] == minters[n].id;
      forall i | 0 <= i < n ensures Ids(minters[..n])[i] != id { assert Ids(minters)[i] != id; }
      ByIdMisses(minters[..n], id);
    }
  }

  /** A write keeps the retirement and the age of every minter it lists again, and retires nobody:
      whatever the request says, only the stored set decides. */
  lemma WriteKeepsLifecycle(incoming: seq<Minter>, stored: seq<Minter>, now: Time, i: nat)
    requires Distinct(Ids(stored)) && i < |incoming| && !incoming[i].retired
    ensures var after := Preserved(incoming, stored, now)[i];
            && after.id == incoming[i].id
            && after.expiresAt == incoming[i].expiresAt && after.neverExpires == incoming[i].neverExpires
            && after.token == incoming[i].token
            && (incoming[i].rotationParams != map[] ==> after.rotationParams == incoming[i].rotationParams)
            && (forall k :: 0 <= k < |stored| && stored[k].id == after.id && incoming[i].rotationParams == map[] ==>
                  after.rotationParams == stored[k].rotationParams)
            && (after.id !in Ids(stored) ==>
                  && after.rotationParams == incoming[i].rotationParams && after.retiredAt == incoming[i].retiredAt
                  && after.createdAt == if incoming[i].createdAt == 0 then now else incoming[i].createdAt)
            && (after.retired <==> exists k :: 0 <= k < |stored| && stored[k].id == after.id && stored[k].retired)
            && (forall k :: 0 <= k < |stored| && stored[k].id == after.id ==>
                  after.retiredAt == stored[k].retiredAt && after.createdAt == stored[k].createdAt)
  {
    var id := incoming[i].id;
    if k :| 0 <= k < |stored| && stored[k].id == id {
      ByIdFinds(stored, k);
      forall l | 0 <= l < |stored| && stored[l].id == id ensures l == k {
        assert Ids(stored)[l] == Ids(stored)[k];
      }
    } else {
      ByIdMisses(stored, id);
    }
  }

  // ----- rotation ------------------------------------------------------------------------

  function Retire(m: Minter, retiredAt: Time): Minter {
    m.(retired := true, retiredAt := retiredAt)
  }

  function Rotated(minters: seq<Minter>, oldIdx: nat, retiredAt: Time, successor: Minter): seq<Minter>
    requires oldIdx < |minters|
  {
    minters[oldIdx := Retire(minters[oldIdx], retiredAt)] + [successor]
  }

  method WithRotatedSuccessor(minters: seq<Minter>, oldIdx: nat, retiredAt: Time, successor: Minter)
    returns (out: seq<Minter>)
    requires oldIdx < |minters|
    ensures out == Rotated(minters, oldIdx, retiredAt, successor)
    ensures |out| == |minters| + 1 && out[|minters|] == successor
    ensures forall i :: 0 <= i < |minters| ==>
              out[i] == if i == oldIdx then minters[i].(retired := true, retiredAt := retiredAt) else minters[i]
  {
    out := [];
    for i := 0 to |minters|
      invariant out == minters[oldIdx := Retire(minters[oldIdx], retiredAt)][..i]
    {
      var m := minters[i];
      if i == oldIdx { m := m.(retired := true, retiredAt := retiredAt); }
      out := out + [m];
    }
    out := out + [successor];
  }

  datatype Located = Missing | AlreadyRetired | At(index: nat)

  method LocateRotatable(minters: seq<Minter>, id: string) returns (r: Located)
    ensures r == Missing <==> id !in Ids(minters)
    ensures r.At? ==> r.index < |minters| && minters[r.index].id == id && !minters[r.index].retired
    ensures r == AlreadyRetired && Distinct(Ids(minters)) ==> forall m :: m in minters && m.id == id ==> m.retired
  {
    for i := 0 to |minters|
      invariant id !in Ids(minters)[..i]
    {
      assert Ids(minters)[i] == minters[i].id;
      if minters[i].id == id {
        if minters[i].retired {
          forall m | m in minters && m.id == id && Distinct(Ids(minters)) ensures m.retired {
            var j :| 0 <= j < |minters| && minters[j] == m;
            assert Ids(minters)[j] == Ids(minters)[i];
          }
          return AlreadyRetired;
        }
        return At(i);
      }
    }
    assert Ids(minters)[..|minters|] == Ids(minters);
    return Missing;
  }

  /** The others that stay active when one minter is rotated out. */
  function Others(minters: seq<Minter>, oldIdx: nat): seq<Minter>
    requires oldIdx < |minters|
  {
    Active(minters[..oldIdx]) + Active(minters[oldIdx + 1..])
  }

  lemma RotatedActive(minters: seq<Minter>, oldIdx: nat, retiredAt: Time, successor: Minter)
    requires oldIdx < |minters| && !successor.retired
    ensures Active(Rotated(minters, oldIdx, retiredAt, successor)) == Others(minters, oldIdx) + [successor]
  {
    var out := Retire(minters[oldIdx], retiredAt);
    assert Rotated(minters, oldIdx, retiredAt, successor)
           == minters[..oldIdx] + ([out] + (minters[oldIdx + 1..] + [successor]));
    FilterConcat(IsActive(), minters[..oldIdx], [out] + (minters[oldIdx + 1..] + [successor]));
    FilterConcat(IsActive(), [out], minters[oldIdx + 1..] + [successor]);
    FilterConcat(IsActive(), minters[oldIdx + 1..], [successor]);
    assert Filter(IsActive(), [out]) == [] && Filter(IsActive(), [successor]) == [successor];
    assert Active(minters[..oldIdx]) + ([] + (Active(minters[oldIdx + 1..]) + [successor]))
           == Others(minters, oldIdx) + [successor];
  }

  /** The successor a rotation commits, or the stand-in it is checked with: it expires a full
      lifetime after the time it is made, or never when the minter it replaces never does. */
  predicate Succeeds(successor: Minter, incumbent: Minter, madeAt: Time) {
    && !successor.retired && successor.neverExpires == incumbent.neverExpires
    && successor.expiresAt == if incumbent.neverExpires then 0 else madeAt + MINTER_SECRET_LIFETIME
  }

  lemma ApartSnoc(rest: seq<Minter>, m: Minter)
    ensures PairwiseApart(rest + [m]) <==> PairwiseApart(rest) && forall x :: x in rest ==> Apart(x, m)
  {
    var s := rest + [m];
    if PairwiseApart(s) {
      forall x | x in rest ensures Apart(x, m) {
        var i :| 0 <= i < |rest| && rest[i] == x;
        assert s[i] == x && s[|rest|] == m;
      }
      forall i, j | 0 <= i < j < |rest| ensures Apart(rest[i], rest[j]) {
        assert s[i] == rest[i] && s[j] == rest[j];
      }
    }
  }

  /** What a rotation needs of the minters it leaves. */
  lemma RotatedValid(minters: seq<Minter>, oldIdx: nat, retiredAt: Time, successor: Minter, madeAt: Time)
    requires oldIdx < |minters| && Succeeds(successor, minters[oldIdx], madeAt)
    ensures var others := Others(minters, oldIdx);
            ValidSet(Rotated(minters, oldIdx, retiredAt, successor)) <==>
              && (forall m :: m in others ==> Bounded(m))
              && (|| successor.neverExpires || SomeNeverExpires(others)
                  || (others != [] && PairwiseApart(others) && forall m :: m in others ==> Apart(m, successor)))
  {
    var others := Others(minters, oldIdx);
    var after := others + [successor];
    RotatedActive(minters, oldIdx, retiredAt, successor);
    ApartSnoc(others, successor);
    hide Filter, PairwiseApart, Rotated, Others;
    assert after[|others|] == successor;
    assert successor in after;
    forall m ensures m in after <==> m in others || m == successor {}
    assert SomeNeverExpires(after) <==> successor.neverExpires || SomeNeverExpires(others);
    assert Bounded(successor);
  }

  /** A minter that stays does not come within the gap of any successor made within `delay` of the
      check: it expires no later than the stand-in, or far enough after it. */
  predicate OutOfReach(m: Minter, standIn: Minter, delay: nat) {
    m.expiresAt <= standIn.expiresAt || m.expiresAt >= standIn.expiresAt + MIN_MINTER_GAP + delay
  }

  /** Every successor made within `delay` of the check commits a valid set. */
  ghost predicate StaysValid(minters: seq<Minter>, oldIdx: nat, retiredAt: Time, checkedAt: Time, delay: nat,
                             successorAt: Time -> Minter)
    requires oldIdx < |minters|
  {
    forall madeAt :: checkedAt <= madeAt <= checkedAt + delay ==>
      ValidSet(Rotated(minters, oldIdx, retiredAt, successorAt(madeAt)))
  }

  /** The successor is made after the stand-in was checked, at most `delay` later. What was checked
      is what is committed, whatever the delay turns out to be, exactly when the expiry of the new
      minter does not matter or every minter left is out of its reach. */
  lemma RotationCheckIsExactly(minters: seq<Minter>, oldIdx: nat, retiredAt: Time, checkedAt: Time, delay: nat,
                               standIn: Minter, successorAt: Time -> Minter)
    requires oldIdx < |minters| && Succeeds(standIn, minters[oldIdx], checkedAt)
    requires forall madeAt :: Succeeds(successorAt(madeAt), minters[oldIdx], madeAt)
    requires ValidSet(Rotated(minters, oldIdx, retiredAt, standIn))
    ensures StaysValid(minters, oldIdx, retiredAt, checkedAt, delay, successorAt)
       <==> || minters[oldIdx].neverExpires || SomeNeverExpires(Others(minters, oldIdx))
            || (forall m :: m in Others(minters, oldIdx) ==> OutOfReach(m, standIn, delay))
  {
    var others := Others(minters, oldIdx);
    RotatedValid(minters, oldIdx, retiredAt, standIn, checkedAt);
    forall madeAt ensures
      var successor := successorAt(madeAt);
      ValidSet(Rotated(minters, oldIdx, retiredAt, successor)) <==>
        && (forall m :: m in others ==> Bounded(m))
        && (|| successor.neverExpires || SomeNeverExpires(others)
            || (others != [] && PairwiseApart(others) && forall m :: m in others ==> Apart(m, successor)))
    {
      RotatedValid(minters, oldIdx, retiredAt, successorAt(madeAt), madeAt);
    }
    hide Filter, PairwiseApart, Rotated, Others, ValidSet;
    if !minters[oldIdx].neverExpires && !SomeNeverExpires(others) {
      if m :| m in others && !OutOfReach(m, standIn, delay) {
        var late := m.expiresAt - MIN_MINTER_GAP + 1 - MINTER_SECRET_LIFETIME;
        assert Apart(m, standIn) && checkedAt <= late <= checkedAt + delay;
        assert !Apart(m, successorAt(late));
      } else {
        forall madeAt, m | checkedAt <= madeAt <= checkedAt + delay && m in others
          ensures Apart(m, successorAt(madeAt)) {
          assert Apart(m, standIn) && OutOfReach(m, standIn, delay);
        }
      }
    }
  }

  /** And whatever the delay at all, exactly when every minter left expires no later than the
      stand-in: one that expires after it can be overtaken. */
  lemma UnboundedRotationCheckIsExactly(minters: seq<Minter>, oldIdx: nat, retiredAt: Time, checkedAt: Time,
                                        standIn: Minter, successorAt: Time -> Minter)
    requires oldIdx < |minters| && Succeeds(standIn, minters[oldIdx], checkedAt)
    requires forall madeAt :: Succeeds(successorAt(madeAt), minters[oldIdx], madeAt)
    requires ValidSet(Rotated(minters, oldIdx, retiredAt, standIn))
    ensures (forall delay: nat :: StaysValid(minters, oldIdx, retiredAt, checkedAt, delay, successorAt))
       <==> || minters[oldIdx].neverExpires || SomeNeverExpires(Others(minters, oldIdx))
            || (forall m :: m in Others(minters, oldIdx) ==> m.expiresAt <= standIn.expiresAt)
  {
    var others := Others(minters, oldIdx);
    forall delay: nat
      ensures StaysValid(minters, oldIdx, retiredAt, checkedAt, delay, successorAt)
         <==> || minters[oldIdx].neverExpires || SomeNeverExpires(others)
              || (forall m :: m in others ==> OutOfReach(m, standIn, delay))
    {
      RotationCheckIsExactly(minters, oldIdx, retiredAt, checkedAt, delay, standIn, successorAt);
    }
    hide StaysValid, Others, SomeNeverExpires, ValidSet, Rotated;
    if m :| m in others && m.expiresAt > standIn.expiresAt {
      assert !OutOfReach(m, standIn, m.expiresAt);
      assert StaysValid(minters, oldIdx, retiredAt, checkedAt, m.expiresAt, successorAt)
        ==> minters[oldIdx].neverExpires || SomeNeverExpires(others);
    }
  }

  /** A rotation that passes its check and commits an invalid set: the minter left expires exactly
      the minimum gap after the stand-in, and the successor is made a nanosecond later. */
  lemma RotationCanInvalidate()
    ensures var expiry := MINTER_SECRET_LIFETIME + MIN_MINTER_GAP + 1;
            var minters := [Minter("a", "", 1, false, 1, false, 0, map[]),
                            Minter("b", "", expiry, false, 1, false, 0, map[])];
            var standIn := Minter("c", "", 1 + MINTER_SECRET_LIFETIME, false, 0, false, 0, map[]);
            var successor := standIn.(expiresAt := 2 + MINTER_SECRET_LIFETIME);
            && Succeeds(standIn, minters[0], 1) && Succeeds(successor, minters[0], 2)
            && ValidSet(Rotated(minters, 0, 1, standIn)) && !ValidSet(Rotated(minters, 0, 1, successor))
  {
    var expiry := MINTER_SECRET_LIFETIME + MIN_MINTER_GAP + 1;
    var a, b := Minter("a", "", 1, false, 1, false, 0, map[]), Minter("b", "", expiry, false, 1, false, 0, map[]);
    var standIn := Minter("c", "", 1 + MINTER_SECRET_LIFETIME, false, 0, false, 0, map[]);
    var successor := standIn.(expiresAt := 2 + MINTER_SECRET_LIFETIME);
    RotatedValid([a, b], 0, 1, standIn, 1);
    RotatedValid([a, b], 0, 1, successor, 2);
    assert [a, b][..0] == [] && [a, b][1..] == [b] && [b][1..] == [];
    assert Active([b]) == [b];
    assert Others([a, b], 0) == [b];
    assert b in [b] && !Apart(b, successor) && Apart(b, standIn);
  }

  // ----- the retirement sweep ------------------------------------------------------------

  const CLIENT_ID := "client_id"

  predicate Aged(m: Minter, now: Time, grace: int) {
    m.retired && now > m.retiredAt + grace
  }

  /** Whether the sweep may drop an aged minter: its client is deleted or gone, or cannot be deleted
      because it names none or no client can be built of it; `undeletable` are those whose delete
      fails. */
  predicate Droppable(m: Minter, undeletable: set<string>) {
    CLIENT_ID !in m.rotationParams || m.rotationParams[CLIENT_ID] == "" || m.rotationParams[CLIENT_ID] !in undeletable
  }

  function Kept(now: Time, grace: int, undeletable: set<string>): Minter -> bool {
    (m: Minter) => !(Aged(m, now, grace) && Droppable(m, undeletable))
  }

  /** One set of a sweep. */
  method SweepSet(minters: seq<Minter>, now: Time, grace: int, undeletable: set<string>)
    returns (kept: seq<Minter>, changed: bool)
    ensures kept == Filter(Kept(now, grace, undeletable), minters)
    ensures !changed ==> kept == minters
    ensures changed ==> |kept| < |minters|
    ensures forall m :: m in kept ==> m in minters
    ensures forall m :: m in minters && (!m.retired || now <= m.retiredAt + grace) ==> m in kept
    ensures forall m :: m in minters && "client_id" in m.rotationParams ==>
              var client := m.rotationParams["client_id"];
              client != "" && client in undeletable ==> m in kept
    ensures forall m :: m in minters && m.retired && now > m.retiredAt + grace ==>
              (if "client_id" !in m.rotationParams then m !in kept
               else
                 var client := m.rotationParams["client_id"];
                 client == "" || client !in undeletable ==> m !in kept)
  {
    FilterMembers(Kept(now, grace, undeletable), minters);
    kept, changed := [], false;
    for i := 0 to |minters|
      invariant kept == Filter(Kept(now, grace, undeletable), minters[..i])
      invariant if changed then |kept| < i else kept == minters[..i]
    {
      FilterNext(Kept(now, grace, undeletable), minters, i);
      assert minters[..i + 1] == minters[..i] + [minters[i]];
      var m := minters[i];
      if m.retired && now > m.retiredAt + grace {
        if Droppable(m, undeletable) {
          changed := true;
          continue;
        }
      }
      kept := kept + [m];
    }
    assert minters[..|minters|] == minters;
  }

  /** A sweep drops only minters retired longer than the grace, and leaves the set as valid as it
      was: nothing it drops was active. */
  lemma SweepKeepsValid(minters: seq<Minter>, now: Time, grace: int, undeletable: set<string>)
    ensures var kept := Filter(Kept(now, grace, undeletable), minters);
            && Active(kept) == Active(minters) && (ValidSet(kept) <==> ValidSet(minters))
            && (forall m :: m in minters && m !in kept ==> m.retired && now > m.retiredAt + grace)
  {
    FilterTwice(Kept(now, grace, undeletable), IsActive(), IsActive(), minters);
    FilterMembers(Kept(now, grace, undeletable), minters);
  }
}
