/** Whose unit a caller is: what its identity aliases agree on, and what a role demands of it. */
module Lineage {
  import opened Common

  type Metadata = map<string, string>

  const META_PARENT := "cloud_creds_parent_entity_id"
  const META_UNIT := "cloud_creds_unit_id"

  datatype Source = NoSource | AliasCustomMetadata | AliasMetadata | EntityMetadata

  /** An empty parent means nothing was established. */
  datatype Found = Found(parent: string, unit: string, source: Source)

  const NOTHING := Found("", "", NoSource)

  datatype Alias = Alias(custom: Metadata, plain: Metadata)

  function Lookup(meta: Metadata, key: string): string {
    if key in meta then meta[key] else ""
  }

  function FromMetadata(meta: Metadata, source: Source): Found {
    if Lookup(meta, META_PARENT) == "" then NOTHING
    else Found(Lookup(meta, META_PARENT), Lookup(meta, META_UNIT), source)
  }

  /** What one alias claims: its custom metadata overrides what logins wrote. */
  function Claim(alias: Option<Alias>): Found {
    match alias
    case None => NOTHING
    case Some(a) =>
      var custom := FromMetadata(a.custom, AliasCustomMetadata);
      if custom.parent != "" then custom else FromMetadata(a.plain, AliasMetadata)
  }

  /** What one alias says, in its metadata: a parent in the custom metadata overrides the plain one
      altogether, the unit and the source come from wherever the parent does, and without a parent
      nothing is said. */
  lemma ClaimOnMetadata(custom: Metadata, plain: Metadata)
    ensures var p, u := "cloud_creds_parent_entity_id", "cloud_creds_unit_id";
            var said := Claim(Some(Alias(custom, plain)));
            if p in custom && custom[p] != "" then
              said == Found(custom[p], if u in custom then custom[u] else "", AliasCustomMetadata)
            else if p in plain && plain[p] != "" then
              said == Found(plain[p], if u in plain then plain[u] else "", AliasMetadata)
            else said == Found("", "", NoSource)
    ensures Claim(None) == Found("", "", NoSource)
  {}

  // ----- the rule, in no order -----------------------------------------------------------

  function Parents(aliases: seq<Option<Alias>>): set<string> {
    set a | a in aliases && Claim(a).parent != "" :: Claim(a).parent
  }

  function Units(aliases: seq<Option<Alias>>): set<string> {
    set a | a in aliases && Claim(a).parent != "" && Claim(a).unit != "" :: Claim(a).unit
  }

  /** At most one parent is named. */
  ghost predicate Agreed(aliases: seq<Option<Alias>>) {
    forall p, q :: p in Parents(aliases) && q in Parents(aliases) ==> p == q
  }

  /** The one value named, or "" when there is none or more than one. */
  ghost function TheOne(named: set<string>): string {
    if |named| == 1 then
      var v :| v in named;
      v
    else ""
  }

  lemma OneIs(named: set<string>, v: string)
    requires v in named && forall w :: w in named ==> w == v
    ensures TheOne(named) == v
  {
    assert named == {v};
  }

  lemma ManyIsNone(named: set<string>, v: string, w: string)
    requires v in named && w in named && v != w
    ensures TheOne(named) == ""
  {
    assert {v, w} <= named;
    assert named == {v, w} + (named - {v, w});
  }

  /** The first alias that claims a parent. */
  function FirstClaim(aliases: seq<Option<Alias>>): Found {
    if aliases == [] then NOTHING
    else
      var before := FirstClaim(aliases[..|aliases| - 1]);
      if before.parent != "" then before else Claim(aliases[|aliases| - 1])
  }

  /** What agreeing aliases resolve to: one parent overall, a unit only when exactly one is named,
      and the source of whichever claim came first. */
  ghost function Resolution(aliases: seq<Option<Alias>>): Found {
    Found(TheOne(Parents(aliases)), TheOne(Units(aliases)), FirstClaim(aliases).source)
  }

  /** What the loop has found: the first claim's parent and source, a unit some claim named, and
      whether another claim named a different one. */
  ghost predicate Scanned(aliases: seq<Option<Alias>>, found: Found, disputed: bool) {
    && Parents(aliases) == (if found.parent == "" then {} else {found.parent})
    && (found.parent == "" ==> found == NOTHING)
    && FirstClaim(aliases).source == found.source && FirstClaim(aliases).parent == found.parent
    && (if found.unit == "" then Units(aliases) == {} && !disputed else found.unit in Units(aliases))
    && (disputed <==> exists u :: u in Units(aliases) && u != found.unit)
  }

  lemma ClaimAdds(aliases: seq<Option<Alias>>, alias: Option<Alias>)
    ensures Parents(aliases + [alias]) == Parents(aliases)
              + (if Claim(alias).parent == "" then {} else {Claim(alias).parent})
    ensures Units(aliases + [alias]) == Units(aliases) +
              (if Claim(alias).parent == "" || Claim(alias).unit == "" then {} else {Claim(alias).unit})
  {
    forall a ensures a in aliases + [alias] <==> a in aliases || a == alias {}
  }

  lemma FirstClaimNext(before: seq<Option<Alias>>, alias: Option<Alias>)
    ensures FirstClaim(before + [alias]) == if FirstClaim(before).parent != "" then FirstClaim(before) else Claim(alias)
    ensures Claim(alias).parent == "" ==> Claim(alias) == NOTHING
  {
    assert (before + [alias])[..|before|] == before;
  }

  /** What one more alias makes of a scan. */
  lemma ScanNext(before: seq<Option<Alias>>, alias: Option<Alias>, found: Found, disputed: bool)
    requires Scanned(before, found, disputed)
    ensures var next, after := Claim(alias), before + [alias];
            if next.parent == "" then Scanned(after, found, disputed)
            else if found.parent == "" then Scanned(after, next, disputed)
            else if found.parent != next.parent then !Agreed(after)
            else if next.unit == "" || next.unit == found.unit then Scanned(after, found, disputed)
            else if found.unit == "" then Scanned(after, found.(unit := next.unit), disputed)
            else Scanned(after, found, true)
  {
    hide Claim, Parents, Units, FirstClaim;
    ClaimAdds(before, alias);
    FirstClaimNext(before, alias);
    var next, after := Claim(alias), before + [alias];
    if next.parent != "" && found.parent != "" && next.parent != found.parent {
      assert found.parent in Parents(after) && next.parent in Parents(after);
    }
  }

  lemma DisagreementStays(aliases: seq<Option<Alias>>, i: nat)
    requires i <= |aliases| && !Agreed(aliases[..i])
    ensures !Agreed(aliases)
  {
    MoreParents(aliases, i);
  }

  method FromAliases(aliases: seq<Option<Alias>>) returns (found: Found, agreed: bool)
    ensures agreed <==> Agreed(aliases)
    ensures found == if agreed then Resolution(aliases) else NOTHING
  {
    found := NOTHING;
    var disputed := false;
    for i := 0 to |aliases|
      invariant Scanned(aliases[..i], found, disputed)
    {
      hide Claim, Agreed, Scanned;
      assert aliases[..i + 1] == aliases[..i] + [aliases[i]];
      ScanNext(aliases[..i], aliases[i], found, disputed);
      var next := Claim(aliases[i]);
      if next.parent == "" { continue; }
      if found.parent == "" {
        found := next;
        continue;
      }
      if found.parent != next.parent {
        DisagreementStays(aliases, i + 1);
        return NOTHING, false;
      }
      if next.unit == "" || next.unit == found.unit {
      } else if found.unit == "" {
        found := found.(unit := next.unit);
      } else {
        disputed := true;
      }
    }
    assert aliases[..|aliases|] == aliases;
    ScanEnds(aliases, found, disputed);
    if disputed { found := found.(unit := ""); }
    return found, true;
  }

  lemma MoreParents(aliases: seq<Option<Alias>>, i: nat)
    requires i <= |aliases|
    ensures Parents(aliases[..i]) <= Parents(aliases)
  {
    forall p | p in Parents(aliases[..i]) ensures p in Parents(aliases) {
      var a :| a in aliases[..i] && Claim(a).parent != "" && Claim(a).parent == p;
      assert a in aliases;
    }
  }

  lemma ScanEnds(aliases: seq<Option<Alias>>, found: Found, disputed: bool)
    requires Scanned(aliases, found, disputed)
    ensures Agreed(aliases) && Resolution(aliases) == if disputed then found.(unit := "") else found
  {
    hide Claim, Parents, Units, FirstClaim;
    if found.parent != "" { OneIs(Parents(aliases), found.parent); }
    if disputed {
      var u :| u in Units(aliases) && u != found.unit;
      ManyIsNone(Units(aliases), u, found.unit);
    } else if found.unit != "" {
      OneIs(Units(aliases), found.unit);
    }
  }

  /** Agreement, parent and unit depend only on which aliases there are, not on their order. */
  lemma AgreementIsOrderFree(a: seq<Option<Alias>>, b: seq<Option<Alias>>)
    requires multiset(a) == multiset(b)
    ensures Agreed(a) <==> Agreed(b)
    ensures Resolution(a).parent == Resolution(b).parent && Resolution(a).unit == Resolution(b).unit
  {
    forall x ensures x in a <==> x in b { assert x in a <==> x in multiset(a); }
    assert Parents(a) == Parents(b) && Units(a) == Units(b);
  }

  /** Where the answer came from is that of the first claim: swapping two aliases that agree changes
      it. */
  lemma SourceFollowsOrder(parent: string)
    requires parent != ""
    ensures var a := Some(Alias(map[META_PARENT := parent], map[]));
            var b := Some(Alias(map[], map[META_PARENT := parent]));
            && Agreed([a, b]) && Agreed([b, a])
            && Resolution([a, b]).source == AliasCustomMetadata && Resolution([b, a]).source == AliasMetadata
  {
    var a := Some(Alias(map[META_PARENT := parent], map[]));
    var b := Some(Alias(map[], map[META_PARENT := parent]));
    assert Claim(a) == Found(parent, "", AliasCustomMetadata) && Claim(b) == Found(parent, "", AliasMetadata);
    PairClaims(a, b);
    PairClaims(b, a);
  }

  lemma PairClaims(a: Option<Alias>, b: Option<Alias>)
    requires Claim(a).parent != "" && Claim(a).parent == Claim(b).parent
    ensures Agreed([a, b]) && FirstClaim([a, b]) == Claim(a)
  {
    hide Claim;
    assert [a, b][..1] == [a] && [a][..0] == [];
    assert FirstClaim([a]) == Claim(a);
  }

  // ----- what a role demands -------------------------------------------------------------

  datatype Entity = Entity(aliases: seq<Option<Alias>>, metadata: Metadata, disabled: bool)

  /** How the identity store answers. */
  datatype Answer = Unanswered | Absent | Present(entity: Entity)

  type View = string -> Answer

  datatype Requirement = RequireNone | RequireParent | RequireLiveParent

  function ParseRequirement(value: string): Option<Requirement> {
    if value == "" || value == "none" then Some(RequireNone)
    else if value == "parent" then Some(RequireParent)
    else if value == "live_parent" then Some(RequireLiveParent)
    else None
  }

  /** What is known of a caller, and whether reading its own entity failed. The entity's metadata
      is a fallback for aliases that say nothing, never a tie-break. */
  ghost function Caller(entityId: string, view: Option<View>): (Found, bool) {
    if entityId == "" || view.None? then (NOTHING, false)
    else
      match view.value(entityId)
      case Unanswered => (NOTHING, true)
      case Absent => (NOTHING, false)
      case Present(entity) =>
        if !Agreed(entity.aliases) then (NOTHING, false)
        else if Resolution(entity.aliases).parent != "" then (Resolution(entity.aliases), false)
        else (FromMetadata(entity.metadata, EntityMetadata), false)
  }

  method ResolveCaller(entityId: string, view: Option<View>) returns (found: Found, failed: bool)
    ensures (found, failed) == Caller(entityId, view)
  {
    if entityId == "" || view.None? { return NOTHING, false; }
    match view.value(entityId)
    case Unanswered => return NOTHING, true;
    case Absent => return NOTHING, false;
    case Present(entity) =>
      var agreed;
      found, agreed := FromAliases(entity.aliases);
      if !agreed { return NOTHING, false; }
      if found.parent != "" { return found, false; }
      return FromMetadata(entity.metadata, EntityMetadata), false;
  }

  /** A caller whose aliases name two parents is nobody's, whatever its own metadata says; one whose
      aliases name one is that parent's, whatever its own metadata says; and only one whose aliases
      name none is whose its metadata says. */
  lemma CallerOnClaims(entityId: string, view: View, entity: Entity, p: string)
    requires entityId != "" && view(entityId) == Present(entity) && p != ""
    ensures var found := Caller(entityId, Some(view));
            var named := (q: string) => exists a :: a in entity.aliases && Claim(a).parent == q;
            && !found.1
            && (named(p) && (exists q :: q != "" && q != p && named(q)) ==> found.0 == Found("", "", NoSource))
            && (named(p) && !(exists q :: q != "" && q != p && named(q)) ==> found.0.parent == p)
            && ((forall a :: a in entity.aliases ==> Claim(a).parent == "") &&
                "cloud_creds_parent_entity_id" in entity.metadata
                && entity.metadata["cloud_creds_parent_entity_id"] == p ==>
                  found.0.parent == p && found.0.source == EntityMetadata)
  {
    var named := (q: string) => exists a :: a in entity.aliases && Claim(a).parent == q;
    hide Claim;
    forall q | q != "" ensures q in Parents(entity.aliases) <==> named(q) {
      if named(q) { var a :| a in entity.aliases && Claim(a).parent == q; }
    }
    if named(p) {
      assert p in Parents(entity.aliases);
      if q :| q != "" && q != p && named(q) {
        assert q in Parents(entity.aliases);
      } else {
        forall q | q in Parents(entity.aliases) ensures q == p { assert named(q); }
        OneIs(Parents(entity.aliases), p);
      }
    } else if forall a :: a in entity.aliases ==> Claim(a).parent == "" {
      assert Parents(entity.aliases) == {};
    }
  }

  /** Only a read that got no answer is a failure: a caller without an entity, or whose entity is not
      there, is a caller without a parent. */
  lemma OnlyUnansweredFails(entityId: string, view: Option<View>)
    ensures Caller(entityId, view).1 <==> entityId != "" && view.Some? && view.value(entityId).Unanswered?
    ensures entityId == "" || view.None? || !view.value(entityId).Present? ==>
              Caller(entityId, view).0 == Found("", "", NoSource)
  {}

  datatype Refusal = Issues | ConfigInvalid | EntityUnavailable | CallerUnparented

  /** The parent is known, is another entity than the caller, and is there and enabled. */
  ghost predicate ParentLives(entityId: string, view: Option<View>) {
    var found := Caller(entityId, view).0;
    && found.parent != "" && found.parent != entityId
    && view.Some? && view.value(found.parent).Present? && !view.value(found.parent).entity.disabled
  }

  /** Whom a demand issues to; a demand this binary does not know issues to nobody. */
  ghost predicate IssuesTo(value: string, entityId: string, view: Option<View>) {
    match ParseRequirement(value)
    case None => false
    case Some(RequireNone) => true
    case Some(RequireParent) => Caller(entityId, view).0.parent != ""
    case Some(RequireLiveParent) => ParentLives(entityId, view)
  }

  method Enforce(entityId: string, view: Option<View>, value: string) returns (found: Found, refusal: Refusal)
    ensures ParseRequirement(value).None? ==> refusal == ConfigInvalid && found == NOTHING
    ensures ParseRequirement(value).Some? ==> found == Caller(entityId, view).0
    ensures refusal == ConfigInvalid <==> value !in {"", "none", "parent", "live_parent"}
    ensures refusal == Issues <==> IssuesTo(value, entityId, view)
    ensures refusal == EntityUnavailable <==>
              var r := ParseRequirement(value);
              && r.Some? && r.value != RequireNone
              && (|| Caller(entityId, view).1
                  || (&& r.value == RequireLiveParent && Caller(entityId, view).0.parent !in {"", entityId}
                      && view.Some? && view.value(Caller(entityId, view).0.parent).Unanswered?))
  {
    var requirement := ParseRequirement(value);
    if requirement.None? { return NOTHING, ConfigInvalid; }
    var failed;
    found, failed := ResolveCaller(entityId, view);
    if requirement.value == RequireNone { return found, Issues; }
    if failed { return found, EntityUnavailable; }
    if found.parent == "" { return found, CallerUnparented; }
    if requirement.value == RequireParent { return found, Issues; }
    if found.parent == entityId { return found, CallerUnparented; }
    match view.value(found.parent)
    case Unanswered => return found, EntityUnavailable;
    case Absent => return found, CallerUnparented;
    case Present(parent) => return found, if parent.disabled then CallerUnparented else Issues;
  }

  /** Whom each demand issues to, in the words a role is configured with: any caller; one with a
      parent; one whose parent is another entity that is there and enabled. No other word issues. */
  lemma WhomDemandsIssueTo(value: string, entityId: string, view: Option<View>)
    ensures var parent := Caller(entityId, view).0.parent;
            IssuesTo(value, entityId, view) <==>
              || value == "" || value == "none"
              || (value == "parent" && parent != "")
              || (&& value == "live_parent" && parent != "" && parent != entityId && view.Some?
                  && view.value(parent).Present? && !view.value(parent).entity.disabled)
  {}

  /** The demands form a ladder: whoever a stronger one issues to, a weaker one does, and what is
      recorded of the caller is the same under each. */
  lemma DemandsAreALadder(entityId: string, view: Option<View>)
    ensures IssuesTo("live_parent", entityId, view) ==> IssuesTo("parent", entityId, view)
    ensures IssuesTo("parent", entityId, view) ==> IssuesTo("none", entityId, view)
    ensures IssuesTo("live_parent", entityId, view) ==> !Caller(entityId, view).1
  {}

  /** Disabling a parent stops every unit beneath it that a role demands a live parent of, and
      nobody else: nothing of what is known of any caller changes. */
  lemma DisablingStopsItsUnits(view: View, parent: string, disabled: View, entityId: string)
    requires view(parent).Present?
    requires forall id :: disabled(id) == if id == parent then Present(view(id).entity.(disabled := true)) else view(id)
    ensures Caller(entityId, Some(disabled)) == Caller(entityId, Some(view))
    ensures ParentLives(entityId, Some(disabled)) <==>
              ParentLives(entityId, Some(view)) && Caller(entityId, Some(view)).0.parent != parent
    ensures IssuesTo("live_parent", entityId, Some(disabled)) <==>
              IssuesTo("live_parent", entityId, Some(view)) && Caller(entityId, Some(view)).0.parent != parent
    ensures IssuesTo("parent", entityId, Some(disabled)) <==> IssuesTo("parent", entityId, Some(view))
  {
    assert disabled(entityId) == view(entityId)
        || (entityId == parent && disabled(entityId).entity.aliases == view(entityId).entity.aliases);
  }
}
