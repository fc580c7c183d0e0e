/** Proving that minters can mint: probes deduplicated by key, run once each behind a rate limiter,
    and remembered for a while. Digests are modelled by what they digest: a cached verdict is kept
    under the check's key and carries the minter's stored form. */
module Capability {
  import opened Common
  import opened Order

  /** `minterForm` is absent when the caller gave no stored form; such a check is never cached. */
  datatype Check = Check(key: string, minter: string, roles: seq<string>, minterForm: Option<string>)

  datatype Probe = Proved | Unsupported | Refused

  datatype Entry = Unparseable | Verdict(fingerprint: string, verifiedAt: nat)

  datatype Result = Result(ran: nat, skipped: nat, cached: nat)

  datatype Failure = Throttled(minter: string) | CannotMint(minter: string, roles: seq<string>)

  /** History: a probe that succeeded, with which minter form and when. */
  datatype Proof = Proof(key: string, form: Option<string>, at: Time)

  /** What one verification meets, by key: the clock when its verdict is looked up and when it is
      stored, the limiter, the probe, and storage entries that cannot be read or written. */
  datatype Env = Env(lookedUp: string -> Time, proved: string -> Time, admits: string -> bool,
                     probe: string -> Probe, unreadable: set<string>, unwritable: set<string>)

  // ----- deduplication -------------------------------------------------------------------

  function AppendMissing(dst: seq<string>, src: seq<string>): seq<string> {
    if src == [] then dst
    else
      var more := AppendMissing(dst, src[..|src| - 1]);
      if src[|src| - 1] in more then more else more + [src[|src| - 1]]
  }

  lemma {:induction false} AppendMissingMembers(dst: seq<string>, src: seq<string>)
    ensures forall r :: r in AppendMissing(dst, src) <==> r in dst || r in src
  {
    if src != [] {
      AppendMissingMembers(dst, src[..|src| - 1]);
      assert src == src[..|src| - 1] + [src[|src| - 1]];
    }
  }

  /** Appending keeps what was there in front and repeats no name. */
  lemma {:induction false} AppendMissingOnce(dst: seq<string>, src: seq<string>)
    ensures dst <= AppendMissing(dst, src)
    ensures Distinct(dst) ==> Distinct(AppendMissing(dst, src))
  {
    if src != [] { AppendMissingOnce(dst, src[..|src| - 1]); }
  }

  method AppendMissingRoles(dst: seq<string>, src: seq<string>) returns (out: seq<string>)
    ensures out == AppendMissing(dst, src)
  {
    out := dst;
    for i := 0 to |src|
      invariant out == AppendMissing(dst, src[..i])
    {
      assert src[..i + 1][..i] == src[..i];
      if src[i] !in out { out := out + [src[i]]; }
    }
    assert src[..|src|] == src;
  }

  function Keys(checks: seq<Check>): set<string> {
    set c | c in checks :: c.key
  }

  /** The checks of one key made one: the first of them, with the roles of all. */
  function Merged(checks: seq<Check>, key: string): Option<Check> {
    if checks == [] then None
    else
      var before, c := Merged(checks[..|checks| - 1], key), checks[|checks| - 1];
      if c.key != key then before
      else match before
        case None => Some(c)
        case Some(e) => Some(e.(roles := AppendMissing(e.roles, c.roles)))
  }

  lemma {:induction false} MergedFacts(checks: seq<Check>, key: string)
    ensures Merged(checks, key).Some? <==> key in Keys(checks)
    ensures Merged(checks, key).Some? ==> Merged(checks, key).value.key == key
    ensures Merged(checks, key).Some? ==>
              exists i :: 0 <= i < |checks| && checks[i].key == key && (forall j :: 0 <= j < i ==> checks[j].key != key)
                          && checks[i].minter == Merged(checks, key).value.minter
                          && checks[i].minterForm == Merged(checks, key).value.minterForm
  {
    if checks != [] {
      var before, c := checks[..|checks| - 1], checks[|checks| - 1];
      assert checks == before + [c];
      MergedFacts(before, key);
      assert Keys(checks) == Keys(before) + {c.key} by {
        forall k ensures k in Keys(checks) <==> k in Keys(before) || k == c.key {
          if k in Keys(checks) { var d :| d in checks && d.key == k; assert d in before || d == c; }
          if k in Keys(before) { var d :| d in before && d.key == k; assert d in checks; }
          assert c in checks;
        }
      }
    }
  }

  /** No role name is lost: a merged check names exactly the roles of the checks it stands for. */
  lemma {:induction false} MergedRoles(checks: seq<Check>, key: string)
    requires Merged(checks, key).Some?
    ensures forall r :: r in Merged(checks, key).value.roles <==>
              exists c :: c in checks && c.key == key && r in c.roles
  {
    var before, c := checks[..|checks| - 1], checks[|checks| - 1];
    assert checks == before + [c];
    var m := Merged(before, key);
    if m.Some? { MergedRoles(before, key); } else { MergedFacts(before, key); }
    if c.key == key && m.Some? { AppendMissingMembers(m.value.roles, c.roles); }
    forall r ensures r in Merged(checks, key).value.roles <==> exists d :: d in checks && d.key == key && r in d.roles {
      if d :| d in checks && d.key == key && r in d.roles {
        if d in before { assert d.key in Keys(before); }
      }
      if r in Merged(checks, key).value.roles && !(c.key == key && r in c.roles) {
        assert m.Some? && r in m.value.roles;
        var d :| d in before && d.key == key && r in d.roles;
        assert d in checks;
      }
      assert c in checks;
    }
  }

  /** One check a key, in key order. */
  ghost predicate IsDeduped(checks: seq<Check>, out: seq<Check>) {
    && |out| == |SortedKeys(Keys(checks))|
    && forall i :: 0 <= i < |out| ==> Merged(checks, SortedKeys(Keys(checks))[i]) == Some(out[i])
  }

  method Collect(checks: seq<Check>) returns (byKey: map<string, Check>, keys: seq<string>)
    ensures Distinct(keys) && (forall k :: k in keys <==> k in Keys(checks)) && byKey.Keys == Keys(checks)
    ensures forall k :: k in byKey ==> Merged(checks, k) == Some(byKey[k])
  {
    byKey, keys := map[], [];
    for i := 0 to |checks|
      invariant Distinct(keys) && forall k :: k in keys <==> k in byKey
      invariant forall k :: Merged(checks[..i], k) == if k in byKey then Some(byKey[k]) else None
    {
      assert checks[..i + 1][..i] == checks[..i];
      var c := checks[i];
      if c.key !in byKey {
        byKey := byKey[c.key := c];
        keys := keys + [c.key];
        continue;
      }
      var existing := byKey[c.key];
      var roles := AppendMissingRoles(existing.roles, c.roles);
      byKey := byKey[c.key := existing.(roles := roles)];
    }
    assert checks[..|checks|] == checks;
    forall k ensures k in byKey <==> k in Keys(checks) { MergedFacts(checks, k); }
  }

  method Gather(byKey: map<string, Check>, keys: seq<string>) returns (out: seq<Check>)
    requires forall k :: k in keys ==> k in byKey
    ensures |out| == |keys| && forall i :: 0 <= i < |keys| ==> out[i] == byKey[keys[i]]
  {
    out := [];
    for i := 0 to |keys|
      invariant |out| == i && forall j :: 0 <= j < i ==> out[j] == byKey[keys[j]]
    {
      out := out + [byKey[keys[i]]];
    }
  }

  method Dedupe(checks: seq<Check>) returns (out: seq<Check>)
    ensures IsDeduped(checks, out)
  {
    var byKey, keys := Collect(checks);
    SortedListing(keys, Keys(checks));
    hide Keys, Merged, Sort, Distinct, Ascending;
    var sorted := Sort(LexLe, keys);
    out := Gather(byKey, sorted);
  }

  lemma DedupedMember(checks: seq<Check>, out: seq<Check>, c: Check)
    requires IsDeduped(checks, out) && c in out
    ensures c.key in Keys(checks)
  {
    var i :| 0 <= i < |out| && out[i] == c;
    MergedFacts(checks, SortedKeys(Keys(checks))[i]);
  }

  lemma DedupedKeys(checks: seq<Check>, out: seq<Check>)
    requires IsDeduped(checks, out)
    ensures forall i, j :: 0 <= i < j < |out| ==> out[i].key != out[j].key
  {
    var keys := SortedKeys(Keys(checks));
    forall i | 0 <= i < |out| ensures out[i].key == keys[i] { MergedFacts(checks, keys[i]); }
  }

  /** The check that stands for another in a deduplicated list. */
  lemma StandsFor(checks: seq<Check>, out: seq<Check>, c: Check) returns (i: nat)
    requires IsDeduped(checks, out) && c in checks
    ensures i < |out| && out[i].key == c.key
  {
    var keys := SortedKeys(Keys(checks));
    assert c.key in Keys(checks);
    i :| 0 <= i < |keys| && keys[i] == c.key;
    MergedFacts(checks, keys[i]);
  }

  // ----- one verification ----------------------------------------------------------------

  predicate Standing(entry: Entry, form: string, now: Time, ttl: int) {
    entry.Verdict? && entry.fingerprint == form && 0 <= now - entry.verifiedAt * SECOND <= ttl
  }

  /** Whether a remembered verdict may stand in for a probe. A cache without a positive TTL is off. */
  predicate Fresh(c: Check, entries: map<string, Entry>, ttl: int, env: Env) {
    && ttl > 0 && c.minterForm.Some? && c.key !in env.unreadable && c.key in entries
    && Standing(entries[c.key], c.minterForm.value, env.lookedUp(c.key), ttl)
  }

  function Stored(c: Check, entries: map<string, Entry>, ttl: int, env: Env): map<string, Entry> {
    if ttl > 0 && c.minterForm.Some? && c.key !in env.unwritable
    then entries[c.key := Verdict(c.minterForm.value, env.proved(c.key) / SECOND)] else entries
  }

  datatype Progress = Progress(
    result: Result, failure: Option<Failure>, entries: map<string, Entry>, proofs: seq<Proof>, probed: seq<string>)

  function StepOne(p: Progress, c: Check, ttl: int, env: Env): Progress {
    if Fresh(c, p.entries, ttl, env) then p.(result := p.result.(cached := p.result.cached + 1))
    else if !env.admits(c.key) then p.(failure := Some(Throttled(c.minter)))
    else
      var tried := p.(probed := p.probed + [c.key]);
      match env.probe(c.key)
      case Proved =>
        tried.(result := p.result.(ran := p.result.ran + 1), entries := Stored(c, p.entries, ttl, env),
               proofs := p.proofs + [Proof(c.key, c.minterForm, env.proved(c.key))])
      case Unsupported => tried.(result := p.result.(skipped := p.result.skipped + 1))
      case Refused => tried.(failure := Some(CannotMint(c.minter, c.roles)))
  }

  /** The checks in order, up to the first failure. */
  function Verified(checks: seq<Check>, start: Progress, ttl: int, env: Env): Progress {
    if checks == [] then start
    else
      var before := Verified(checks[..|checks| - 1], start, ttl, env);
      if before.failure.Some? then before else StepOne(before, checks[|checks| - 1], ttl, env)
  }

  lemma {:induction false} FailureStays(checks: seq<Check>, n: nat, start: Progress, ttl: int, env: Env)
    requires n <= |checks| && Verified(checks[..n], start, ttl, env).failure.Some?
    ensures Verified(checks, start, ttl, env) == Verified(checks[..n], start, ttl, env)
  {
    if n == |checks| {
      assert checks[..n] == checks;
    } else {
      assert checks[..|checks| - 1][..n] == checks[..n];
      FailureStays(checks[..|checks| - 1], n, start, ttl, env);
    }
  }

  lemma VerifiedNext(checks: seq<Check>, n: nat, start: Progress, ttl: int, env: Env)
    requires n < |checks| && Verified(checks[..n], start, ttl, env).failure.None?
    ensures var next := StepOne(Verified(checks[..n], start, ttl, env), checks[n], ttl, env);
            && Verified(checks[..n + 1], start, ttl, env) == next
            && (next.failure.Some? ==> Verified(checks, start, ttl, env) == next)
  {
    assert checks[..n + 1][..n] == checks[..n];
    if Verified(checks[..n + 1], start, ttl, env).failure.Some? { FailureStays(checks, n + 1, start, ttl, env); }
  }

  lemma VerifiedNone(start: Progress, ttl: int, env: Env)
    ensures Verified([], start, ttl, env) == start
  {}

  function Start(entries: map<string, Entry>, proofs: seq<Proof>): Progress {
    Progress(Result(0, 0, 0), None, entries, proofs, [])
  }

  class Cache {
    var entries: map<string, Entry>
    const ttl: int
    /** Every probe that ever succeeded. */
    ghost var proofs: seq<Proof>

    constructor (ttl: int)
      ensures this.ttl == ttl && entries == map[] && proofs == []
    {
      this.ttl := ttl;
      entries := map[];
      proofs := [];
    }

    method IsFresh(c: Check, env: Env) returns (r: bool)
      ensures r == Fresh(c, entries, ttl, env)
      ensures r <==>
                && ttl > 0 && c.minterForm.Some? && c.key !in env.unreadable
                && c.key in entries && entries[c.key].Verdict? && entries[c.key].fingerprint == c.minterForm.value
                && entries[c.key].verifiedAt * SECOND <= env.lookedUp(c.key)
                && env.lookedUp(c.key) <= entries[c.key].verifiedAt * SECOND + ttl
    {
      if ttl <= 0 || c.minterForm.None? { return false; }
      if c.key in env.unreadable || c.key !in entries { return false; }
      var stored := entries[c.key];
      if stored.Unparseable? { return false; }
      if stored.fingerprint != c.minterForm.value { return false; }
      var age := env.lookedUp(c.key) - stored.verifiedAt * SECOND;
      return age >= 0 && age <= ttl;
    }

    method Store(c: Check, env: Env)
      modifies this
      ensures entries == Stored(c, old(entries), ttl, env)
      ensures ttl > 0 && c.minterForm.Some? && c.key !in env.unwritable ==>
                entries == old(entries)[c.key := Verdict(c.minterForm.value, env.proved(c.key) / SECOND)]
      ensures ttl <= 0 || c.minterForm.None? || c.key in env.unwritable ==> entries == old(entries)
      ensures proofs == old(proofs) + [Proof(c.key, c.minterForm, env.proved(c.key))]
    {
      proofs := proofs + [Proof(c.key, c.minterForm, env.proved(c.key))];
      if ttl <= 0 || c.minterForm.None? { return; }
      if c.key in env.unwritable { return; }
      entries := entries[c.key := Verdict(c.minterForm.value, env.proved(c.key) / SECOND)];
    }

    /** Each distinct check once, stopping at the first failure. */
    method Verify(checks: seq<Check>, env: Env)
      returns (result: Result, failure: Option<Failure>, ghost distinct: seq<Check>, ghost probed: seq<string>)
      modifies this
      ensures IsDeduped(checks, distinct)
      ensures Distinct(probed) && forall k :: k in probed ==> k in Keys(checks)
      ensures failure.None? ==> result.ran + result.skipped + result.cached == |Keys(checks)|
      ensures var p := Verified(distinct, Start(old(entries), old(proofs)), ttl, env);
              result == p.result && failure == p.failure && entries == p.entries && proofs == p.proofs
              && probed == p.probed
    {
      var list := Dedupe(checks);
      distinct := list;
      result := Result(0, 0, 0);
      ghost var start := Start(entries, proofs);
      probed := [];
      ProbedOnce(checks, list, entries, proofs, ttl, env);
      hide IsDeduped, Fresh, Stored, Verified;
      VerifiedNone(start, ttl, env);
      assert list[..0] == [];
      for i := 0 to |list|
        invariant Verified(list[..i], start, ttl, env) == Progress(result, None, entries, proofs, probed)
      {
        VerifiedNext(list, i, start, ttl, env);
        var c := list[i];
        var known := IsFresh(c, env);
        if known {
          result := result.(cached := result.cached + 1);
          continue;
        }
        if !env.admits(c.key) {
          return result, Some(Throttled(c.minter)), list, probed;
        }
        probed := probed + [c.key];
        match env.probe(c.key)
        case Proved =>
          result := result.(ran := result.ran + 1);
          Store(c, env);
        case Unsupported =>
          result := result.(skipped := result.skipped + 1);
        case Refused =>
          return result, Some(CannotMint(c.minter, c.roles)), list, probed;
      }
      assert list[..|list|] == list;
      return result, None, list, probed;
    }

    /** Deletes verdicts that are too old, or that can never stand in for a probe, and every one
        when the cache is off. */
    method Prune(now: Time, unreadable: set<string>, undeletable: set<string>) returns (pruned: nat)
      modifies this
      ensures entries == Pruned(old(entries), now, ttl, unreadable, undeletable) && proofs == old(proofs)
      ensures pruned == |old(entries)| - |entries|
      ensures forall k :: k in entries <==>
                && k in old(entries)
                && (|| k in undeletable
                    || (&& ttl > 0 && k !in unreadable && old(entries)[k].Verdict?
                        && now <= old(entries)[k].verifiedAt * SECOND + ttl))
      ensures forall k :: k in entries ==> entries[k] == old(entries)[k]
    {
      var keys := ListKeys(entries.Keys);
      PruningStarts(entries, keys, now, ttl, unreadable, undeletable);
      pruned := PruneEach(keys, now, unreadable, undeletable);
      PruningEnds(old(entries), entries, keys, now, ttl, unreadable, undeletable);
    }

    method PruneEach(keys: seq<string>, now: Time, unreadable: set<string>, undeletable: set<string>)
      returns (pruned: nat)
      requires Pruning(entries, entries, keys, 0, now, ttl, unreadable, undeletable)
      modifies this`entries
      ensures Pruning(old(entries), entries, keys, |keys|, now, ttl, unreadable, undeletable)
      ensures pruned == |old(entries)| - |entries|
    {
      pruned := 0;
      hide Pruning;
      for i := 0 to |keys|
        invariant Pruning(old(entries), entries, keys, i, now, ttl, unreadable, undeletable)
        invariant pruned == |old(entries)| - |entries|
      {
        PruningNext(old(entries), entries, keys, i, now, ttl, unreadable, undeletable);
        if ttl > 0 && !Expired(entries[keys[i]], keys[i], now, ttl, unreadable) { continue; }
        if keys[i] in undeletable { continue; }
        DeleteVerdict(keys[i]);
        pruned := pruned + 1;
      }
    }

    method DeleteVerdict(key: string)
      requires key in entries
      modifies this`entries
      ensures entries == old(entries) - {key} && |entries| == |old(entries)| - 1
    {
      DropKeyCount(entries, key);
      entries := entries - {key};
    }
  }

  /** A sweep that has come to the key at `i`. */
  ghost predicate Pruning(before: map<string, Entry>, entries: map<string, Entry>, keys: seq<string>, i: nat, now: Time,
                          ttl: int, unreadable: set<string>, undeletable: set<string>)
  {
    && i <= |keys| && Distinct(keys)
    && (forall k :: k in before <==> k in keys)
    && (forall k :: k in entries <==>
                      k in before && (k in keys[i..] || Keeps(before[k], k, now, ttl, unreadable, undeletable)))
    && (forall k :: k in entries ==> entries[k] == before[k])
  }

  lemma PruningStarts(before: map<string, Entry>, keys: seq<string>, now: Time, ttl: int, unreadable: set<string>,
                      undeletable: set<string>)
    requires Distinct(keys) && forall k :: k in before <==> k in keys
    ensures Pruning(before, before, keys, 0, now, ttl, unreadable, undeletable)
  {
    assert keys[0..] == keys;
  }

  lemma PruningEnds(before: map<string, Entry>, entries: map<string, Entry>, keys: seq<string>, now: Time, ttl: int,
                    unreadable: set<string>, undeletable: set<string>)
    requires Pruning(before, entries, keys, |keys|, now, ttl, unreadable, undeletable)
    ensures entries == Pruned(before, now, ttl, unreadable, undeletable)
  {}

  lemma PruningNext(before: map<string, Entry>, entries: map<string, Entry>, keys: seq<string>, i: nat, now: Time,
                    ttl: int, unreadable: set<string>, undeletable: set<string>)
    requires i < |keys| && Pruning(before, entries, keys, i, now, ttl, unreadable, undeletable)
    ensures keys[i] in entries
    ensures var kept := (ttl > 0 && !Expired(entries[keys[i]], keys[i], now, ttl, unreadable))
                        || keys[i] in undeletable;
            Pruning(before, if kept then entries else entries - {keys[i]},
                    keys, i + 1, now, ttl, unreadable, undeletable)
  {
    var key := keys[i];
    assert keys[i..] == [key] + keys[i + 1..];
    assert key !in keys[i + 1..];
    assert key in keys && key in entries;
  }

  predicate Expired(entry: Entry, key: string, now: Time, ttl: int, unreadable: set<string>) {
    key in unreadable || entry.Unparseable? || now - entry.verifiedAt * SECOND > ttl
  }

  predicate Keeps(entry: Entry, key: string, now: Time, ttl: int, unreadable: set<string>, undeletable: set<string>) {
    (ttl > 0 && !Expired(entry, key, now, ttl, unreadable)) || key in undeletable
  }

  function Pruned(entries: map<string, Entry>, now: Time, ttl: int, unreadable: set<string>, undeletable: set<string>)
    : map<string, Entry>
  {
    map k | k in entries && Keeps(entries[k], k, now, ttl, unreadable, undeletable) :: entries[k]
  }

  // ----- what a verification establishes -------------------------------------------------

  lemma OneMore(keys: seq<string>, key: string)
    requires Distinct(keys) && key !in keys
    ensures Distinct(keys + [key])
  {}

  lemma {:induction false} EntriesElsewhere(checks: seq<Check>, start: Progress, ttl: int, env: Env, key: string)
    requires forall c :: c in checks ==> c.key != key
    ensures var p := Verified(checks, start, ttl, env);
            && (key in p.entries <==> key in start.entries)
            && (key in p.entries ==> p.entries[key] == start.entries[key])
  {
    if checks != [] {
      assert checks[|checks| - 1] in checks;
      EntriesElsewhere(checks[..|checks| - 1], start, ttl, env, key);
    }
  }

  /** Of checks with different keys each is probed at most once, and only when the cache it starts
      from does not stand in for it. */
  lemma {:induction false} ProbesOf(checks: seq<Check>, start: Progress, ttl: int, env: Env)
    requires (forall i, j :: 0 <= i < j < |checks| ==> checks[i].key != checks[j].key) && start.probed == []
    ensures var p := Verified(checks, start, ttl, env);
            && Distinct(p.probed)
            && (forall k :: k in p.probed ==>
                  exists c :: c in checks && c.key == k && !Fresh(c, start.entries, ttl, env))
            && (p.failure.None? ==> forall c :: c in checks && !Fresh(c, start.entries, ttl, env) ==> c.key in p.probed)
  {
    if checks != [] {
      var before, c := checks[..|checks| - 1], checks[|checks| - 1];
      var p, q := Verified(before, start, ttl, env), Verified(checks, start, ttl, env);
      ProbesOf(before, start, ttl, env);
      EntriesElsewhere(before, start, ttl, env, c.key);
      assert c in checks && (Fresh(c, p.entries, ttl, env) <==> Fresh(c, start.entries, ttl, env));
      assert q.probed == p.probed || (q.probed == p.probed + [c.key] && !Fresh(c, start.entries, ttl, env));
      hide Fresh;
      forall k | k in p.probed
        ensures k != c.key && exists d :: d in checks && d.key == k && !Fresh(d, start.entries, ttl, env)
      {
        var d :| d in before && d.key == k && !Fresh(d, start.entries, ttl, env);
        assert d in checks;
      }
      forall d | d in checks ensures d in before || d == c {}
      OneMore(p.probed, c.key);
    }
  }

  lemma {:induction false} PassCounts(checks: seq<Check>, entries: map<string, Entry>, proofs: seq<Proof>,
                                      ttl: int, env: Env)
    ensures var p := Verified(checks, Start(entries, proofs), ttl, env);
            p.failure.None? ==> p.result.ran + p.result.skipped + p.result.cached == |checks|
  {
    if checks != [] { PassCounts(checks[..|checks| - 1], entries, proofs, ttl, env); }
  }

  /** A check that the cache stands in for, or whose probe is let through and not refused. */
  predicate Passes(c: Check, entries: map<string, Entry>, ttl: int, env: Env) {
    Fresh(c, entries, ttl, env) || (env.admits(c.key) && env.probe(c.key) != Refused)
  }

  /** A verification stops at the first check that does not pass, and says which it was and why: it
      could not be tried, or it was tried and the minter cannot mint for its roles. */
  lemma {:induction false} FailsAtFirst(checks: seq<Check>, start: Progress, ttl: int, env: Env)
    requires (forall i, j :: 0 <= i < j < |checks| ==> checks[i].key != checks[j].key) && start.failure.None?
    ensures var failure := Verified(checks, start, ttl, env).failure;
            && (failure.None? <==> forall c :: c in checks ==> Passes(c, start.entries, ttl, env))
            && (failure.Some? ==>
                  exists i :: 0 <= i < |checks| && !Passes(checks[i], start.entries, ttl, env)
                    && (forall j :: 0 <= j < i ==> Passes(checks[j], start.entries, ttl, env))
                    && failure.value == if env.admits(checks[i].key) then CannotMint(checks[i].minter, checks[i].roles)
                                        else Throttled(checks[i].minter))
  {
    if checks != [] {
      var before, c := checks[..|checks| - 1], checks[|checks| - 1];
      FailsAtFirst(before, start, ttl, env);
      EntriesElsewhere(before, start, ttl, env, c.key);
      var p := Verified(before, start, ttl, env);
      assert Fresh(c, p.entries, ttl, env) <==> Fresh(c, start.entries, ttl, env);
      assert forall d :: d in checks <==> d in before || d == c;
      if p.failure.Some? {
        var i :| 0 <= i < |before| && !Passes(before[i], start.entries, ttl, env)
                 && (forall j :: 0 <= j < i ==> Passes(before[j], start.entries, ttl, env))
                 && p.failure.value == if env.admits(before[i].key) then CannotMint(before[i].minter, before[i].roles)
                                       else Throttled(before[i].minter);
        assert checks[i] == before[i] && checks[i] in checks;
        assert forall j :: 0 <= j < i ==> checks[j] == before[j];
      } else {
        forall j | 0 <= j < |before| ensures Passes(checks[j], start.entries, ttl, env) { assert before[j] in before; }
        assert checks[|before|] == c;
      }
    }
  }

  /** The checks of one kind, by position. */
  function Positions(checks: seq<Check>, kind: Check -> bool): set<nat> {
    set i: nat | i < |checks| && kind(checks[i])
  }

  lemma PositionsNext(before: seq<Check>, c: Check, kind: Check -> bool)
    ensures |Positions(before + [c], kind)| == |Positions(before, kind)| + (if kind(c) then 1 else 0)
  {
    var all := before + [c];
    assert forall i :: 0 <= i < |before| ==> all[i] == before[i];
    assert Positions(all, kind) == Positions(before, kind) + (if kind(c) then {|before|} else {});
  }

  /** What the three counts of a verification that fails nothing are of. */
  lemma {:induction false} CountsAreOf(checks: seq<Check>, entries: map<string, Entry>, proofs: seq<Proof>, ttl: int,
                                       env: Env)
    requires forall i, j :: 0 <= i < j < |checks| ==> checks[i].key != checks[j].key
    requires Verified(checks, Start(entries, proofs), ttl, env).failure.None?
    ensures var r := Verified(checks, Start(entries, proofs), ttl, env).result;
            && r.cached == |Positions(checks, c => Fresh(c, entries, ttl, env))|
            && r.ran == |Positions(checks, c => !Fresh(c, entries, ttl, env) && env.probe(c.key) == Proved)|
            && r.skipped == |Positions(checks, c => !Fresh(c, entries, ttl, env) && env.probe(c.key) == Unsupported)|
  {
    var cached := (c: Check) => Fresh(c, entries, ttl, env);
    var ran := (c: Check) => !Fresh(c, entries, ttl, env) && env.probe(c.key) == Proved;
    var skipped := (c: Check) => !Fresh(c, entries, ttl, env) && env.probe(c.key) == Unsupported;
    if checks == [] {
      assert Positions(checks, cached) == {} && Positions(checks, ran) == {} && Positions(checks, skipped) == {};
    } else {
      var before, c := checks[..|checks| - 1], checks[|checks| - 1];
      assert checks == before + [c];
      CountsAreOf(before, entries, proofs, ttl, env);
      EntriesElsewhere(before, Start(entries, proofs), ttl, env, c.key);
      PositionsNext(before, c, cached);
      PositionsNext(before, c, ran);
      PositionsNext(before, c, skipped);
      var p := Verified(before, Start(entries, proofs), ttl, env);
      assert Fresh(c, p.entries, ttl, env) <==> Fresh(c, entries, ttl, env);
    }
  }

  lemma DedupedCount(checks: seq<Check>, out: seq<Check>)
    requires IsDeduped(checks, out)
    ensures |out| == |Keys(checks)|
  {
    var keys := SortedKeys(Keys(checks));
    DistinctCount(keys);
    assert Elements(keys) == Keys(checks);
  }

  /** However many checks name a key, it is probed at most once, and only when the cache does not
      stand in for it. A verification that fails nothing has probed every key the cache does not
      stand in for, and accounts for every key once: run, unsupported or remembered. */
  lemma ProbedOnce(checks: seq<Check>, out: seq<Check>, entries: map<string, Entry>, proofs: seq<Proof>,
                   ttl: int, env: Env)
    requires IsDeduped(checks, out)
    ensures var p := Verified(out, Start(entries, proofs), ttl, env);
            && Distinct(p.probed) && (forall k :: k in p.probed ==> k in Keys(checks))
            && (forall c :: c in out && c.key in p.probed ==> !Fresh(c, entries, ttl, env))
            && (p.failure.None? ==>
                  && (forall c :: c in out && !Fresh(c, entries, ttl, env) ==> c.key in p.probed)
                  && p.result.ran + p.result.skipped + p.result.cached == |Keys(checks)|)
  {
    DedupedKeys(checks, out);
    ProbesOf(out, Start(entries, proofs), ttl, env);
    PassCounts(out, entries, proofs, ttl, env);
    DedupedCount(checks, out);
    forall c | c in out ensures c.key in Keys(checks) { DedupedMember(checks, out, c); }
    hide Fresh, Verified, IsDeduped, Keys;
  }

  /** Every verdict kept is of a probe that succeeded, in the second it says. */
  ghost predicate CacheSound(entries: map<string, Entry>, proofs: seq<Proof>) {
    forall k :: k in entries && entries[k].Verdict? ==>
      exists p :: p in proofs && p.key == k && p.form == Some(entries[k].fingerprint)
                    && p.at / SECOND == entries[k].verifiedAt
  }

  lemma StoreKeepsSound(c: Check, entries: map<string, Entry>, proofs: seq<Proof>, ttl: int, env: Env)
    requires CacheSound(entries, proofs)
    ensures CacheSound(Stored(c, entries, ttl, env), proofs + [Proof(c.key, c.minterForm, env.proved(c.key))])
  {
    var proof := Proof(c.key, c.minterForm, env.proved(c.key));
    var after, all := Stored(c, entries, ttl, env), proofs + [proof];
    assert proof in all;
    forall k | k in after && after[k].Verdict?
      ensures exists p :: p in all && p.key == k && p.form == Some(after[k].fingerprint)
                      && p.at / SECOND == after[k].verifiedAt
    {
      if k in entries && after[k] == entries[k] {
        var p :| p in proofs && p.key == k && p.form == Some(entries[k].fingerprint)
                 && p.at / SECOND == entries[k].verifiedAt;
        assert p in all;
      }
    }
  }

  lemma {:induction false} PassKeepsSound(checks: seq<Check>, start: Progress, ttl: int, env: Env)
    requires CacheSound(start.entries, start.proofs)
    ensures var p := Verified(checks, start, ttl, env);
            CacheSound(p.entries, p.proofs) && |start.proofs| <= |p.proofs|
            && start.proofs == p.proofs[..|start.proofs|]
  {
    if checks != [] {
      var before, c := Verified(checks[..|checks| - 1], start, ttl, env), checks[|checks| - 1];
      PassKeepsSound(checks[..|checks| - 1], start, ttl, env);
      StoreKeepsSound(c, before.entries, before.proofs, ttl, env);
      hide CacheSound, Fresh, Stored;
    }
  }

  /** Why a check needs no probe any more: it succeeded in this pass, which began after the first
      `earlier` successes; or it is unsupported; or a success of the same key and minter form is no
      older than the TTL, by a clock of whole seconds. */
  ghost predicate Justified(c: Check, earlier: nat, proofs: seq<Proof>, ttl: int, env: Env) {
    || (exists i :: earlier <= i < |proofs| && proofs[i] == Proof(c.key, c.minterForm, env.proved(c.key)))
    || env.probe(c.key) == Unsupported
    || (exists p :: p in proofs && p.key == c.key && p.form == c.minterForm && p.form.Some?
                    && env.lookedUp(c.key) - ttl <= p.at < env.lookedUp(c.key) + SECOND)
  }

  lemma HitIsJustified(c: Check, entries: map<string, Entry>, proofs: seq<Proof>, earlier: nat, ttl: int, env: Env)
    requires CacheSound(entries, proofs) && Fresh(c, entries, ttl, env)
    ensures Justified(c, earlier, proofs, ttl, env)
  {
    var e := entries[c.key];
    var p :| p in proofs && p.key == c.key && p.form == Some(e.fingerprint) && p.at / SECOND == e.verifiedAt;
    assert e.verifiedAt * SECOND <= p.at < e.verifiedAt * SECOND + SECOND;
  }

  /** A success that could be stored is remembered: until the TTL is over, by a clock of whole seconds,
      it stands in for a probe of the same key and form, and of no other form. */
  lemma SuccessIsRemembered(c: Check, again: Check, entries: map<string, Entry>, ttl: int, env: Env, later: Env)
    requires ttl > 0 && c.minterForm.Some? && c.key !in env.unwritable && again.key == c.key
    requires again.key !in later.unreadable
    ensures var second := env.proved(c.key) / SECOND * SECOND;
            Fresh(again, Stored(c, entries, ttl, env), ttl, later) <==>
              again.minterForm == c.minterForm && second <= later.lookedUp(c.key) <= second + ttl
  {}

  lemma JustifiedStays(c: Check, earlier: nat, proofs: seq<Proof>, more: seq<Proof>, ttl: int, env: Env)
    requires Justified(c, earlier, proofs, ttl, env)
    ensures Justified(c, earlier, proofs + more, ttl, env)
  {
    if i :| earlier <= i < |proofs| && proofs[i] == Proof(c.key, c.minterForm, env.proved(c.key)) {
      assert (proofs + more)[i] == proofs[i];
    } else if env.probe(c.key) != Unsupported {
      var p :| p in proofs && p.key == c.key && p.form == c.minterForm && p.form.Some?
               && env.lookedUp(c.key) - ttl <= p.at < env.lookedUp(c.key) + SECOND;
      assert p in proofs + more;
    }
  }

  lemma StepJustifies(p: Progress, c: Check, earlier: nat, ttl: int, env: Env)
    requires CacheSound(p.entries, p.proofs) && earlier <= |p.proofs|
    requires p.failure.None? && StepOne(p, c, ttl, env).failure.None?
    ensures Justified(c, earlier, StepOne(p, c, ttl, env).proofs, ttl, env)
  {
    if Fresh(c, p.entries, ttl, env) {
      HitIsJustified(c, p.entries, p.proofs, earlier, ttl, env);
    } else if env.probe(c.key) == Proved {
      var after := StepOne(p, c, ttl, env).proofs;
      assert after[|p.proofs|] == Proof(c.key, c.minterForm, env.proved(c.key));
    }
  }

  /** A pass that fails nothing has justified every check it was given. */
  lemma {:induction false} PassJustifies(checks: seq<Check>, start: Progress, ttl: int, env: Env)
    requires CacheSound(start.entries, start.proofs) && Verified(checks, start, ttl, env).failure.None?
    ensures forall c :: c in checks ==>
              Justified(c, |start.proofs|, Verified(checks, start, ttl, env).proofs, ttl, env)
  {
    if checks != [] {
      var n := |checks| - 1;
      var before, after := Verified(checks[..n], start, ttl, env), Verified(checks, start, ttl, env);
      PassJustifies(checks[..n], start, ttl, env);
      PassKeepsSound(checks[..n], start, ttl, env);
      StepJustifies(before, checks[n], |start.proofs|, ttl, env);
      assert after.proofs == before.proofs + after.proofs[|before.proofs|..];
      hide Justified, CacheSound, Fresh, Stored, Verified;
      forall c | c in checks ensures Justified(c, |start.proofs|, after.proofs, ttl, env) {
        if c in checks[..n] {
          JustifiedStays(c, |start.proofs|, before.proofs, after.proofs[|before.proofs|..], ttl, env);
        } else {
          assert c == checks[n];
        }
      }
    }
  }

  // ----- several verifications at once ---------------------------------------------------

  /** A verification between two of its steps: looking up the verdict of its next check, probing it,
      or about to store what it proved. It began when `earlier` probes had ever succeeded. */
  datatype Phase = Looking | Probing | Storing

  datatype Running = Running(checks: seq<Check>, next: nat, phase: Phase, earlier: nat, env: Env)

  datatype Mount = Mount(entries: map<string, Entry>, proofs: seq<Proof>, running: map<nat, Running>)

  /** Dropping an entry stands for what a sweep may do, and for more. */
  datatype Step =
    | Begin(r: nat, checks: seq<Check>, env: Env)
    | LookUp(r: nat)
    | Try(r: nat)
    | Keep(r: nat)
    | Drop(key: string)

  predicate Enabled(m: Mount, step: Step) {
    match step
    case Begin(r, _, _) => r !in m.running
    case LookUp(r) =>
      r in m.running && m.running[r].phase.Looking? && m.running[r].next < |m.running[r].checks|
    case Try(r) => r in m.running && m.running[r].phase.Probing? && m.running[r].next < |m.running[r].checks|
    case Keep(r) => r in m.running && m.running[r].phase.Storing? && m.running[r].next < |m.running[r].checks|
    case Drop(_) => true
  }

  function Moved(m: Mount, r: nat, running: Running): Mount {
    m.(running := m.running[r := running])
  }

  /** A verification that fails is over and remembers nothing. */
  function Next(m: Mount, step: Step, ttl: int): Mount
    requires Enabled(m, step)
  {
    match step
    case Begin(r, checks, env) => Moved(m, r, Running(checks, 0, Looking, |m.proofs|, env))
    case LookUp(r) =>
      var v := m.running[r];
      if Fresh(v.checks[v.next], m.entries, ttl, v.env) then Moved(m, r, v.(next := v.next + 1))
      else if !v.env.admits(v.checks[v.next].key) then m.(running := m.running - {r})
      else Moved(m, r, v.(phase := Probing))
    case Try(r) =>
      var v := m.running[r];
      (match v.env.probe(v.checks[v.next].key)
       case Proved => Moved(m, r, v.(phase := Storing))
       case Unsupported => Moved(m, r, v.(next := v.next + 1, phase := Looking))
       case Refused => m.(running := m.running - {r}))
    case Keep(r) =>
      var v := m.running[r];
      var c := v.checks[v.next];
      Mount(Stored(c, m.entries, ttl, v.env), m.proofs + [Proof(c.key, c.minterForm, v.env.proved(c.key))],
            m.running[r := v.(next := v.next + 1, phase := Looking)])
    case Drop(key) => m.(entries := m.entries - {key})
  }

  function After(steps: seq<Step>, ttl: int): Option<Mount> {
    if steps == [] then Some(Mount(map[], [], map[]))
    else
      var before, step := After(steps[..|steps| - 1], ttl), steps[|steps| - 1];
      if before.Some? && Enabled(before.value, step) then Some(Next(before.value, step, ttl)) else None
  }

  lemma Then(steps: seq<Step>, m: Mount, step: Step, ttl: int)
    requires After(steps, ttl) == Some(m) && Enabled(m, step)
    ensures After(steps + [step], ttl) == Some(Next(m, step, ttl))
  {
    assert (steps + [step])[..|steps|] == steps;
  }

  /** The steps of one check with nothing in between. */
  lemma CheckAlone(before: seq<Step>, m: Mount, r: nat, p: Progress, ttl: int) returns (steps: seq<Step>, after: Mount)
    requires After(before, ttl) == Some(m) && Enabled(m, LookUp(r))
    requires p.failure.None? && p.entries == m.entries && p.proofs == m.proofs
    ensures After(steps, ttl) == Some(after)
    ensures var v := m.running[r];
            var q := StepOne(p, v.checks[v.next], ttl, v.env);
            after == Mount(q.entries, q.proofs,
                           if q.failure.None? then m.running[r := v.(next := v.next + 1)] else m.running - {r})
  {
    hide After, Fresh, Stored;
    var v := m.running[r];
    var c := v.checks[v.next];
    Then(before, m, LookUp(r), ttl);
    steps, after := before + [LookUp(r)], Next(m, LookUp(r), ttl);
    if Fresh(c, m.entries, ttl, v.env) || !v.env.admits(c.key) { return; }
    Then(steps, after, Try(r), ttl);
    steps, after := steps + [Try(r)], Next(after, Try(r), ttl);
    if v.env.probe(c.key) == Proved {
      Then(steps, after, Keep(r), ttl);
      steps, after := steps + [Keep(r)], Next(after, Keep(r), ttl);
      assert after.running == m.running[r := v.(next := v.next + 1)];
    } else if v.env.probe(c.key) == Unsupported {
      assert after.running == m.running[r := v.(next := v.next + 1)];
    } else {
      assert after.running == m.running - {r};
    }
  }

  /** A verification nobody comes between does what the loop does: the same verdicts and successes, and
      it is over early exactly when the loop fails. */
  lemma {:induction false} AloneIsVerified(before: seq<Step>, m: Mount, r: nat, checks: seq<Check>, n: nat, env: Env,
                                           ttl: int)
    returns (steps: seq<Step>, after: Mount)
    requires After(before, ttl) == Some(m) && r !in m.running && n <= |checks|
    ensures After(steps, ttl) == Some(after)
    ensures var p := Verified(checks[..n], Start(m.entries, m.proofs), ttl, env);
            after == Mount(p.entries, p.proofs,
                           if p.failure.None? then m.running[r := Running(checks, n, Looking, |m.proofs|, env)]
                           else m.running)
  {
    hide After, StepOne;
    if n == 0 {
      Then(before, m, Begin(r, checks, env), ttl);
      steps, after := before + [Begin(r, checks, env)], Next(m, Begin(r, checks, env), ttl);
      assert checks[..0] == [];
    } else {
      assert checks[..n][..n - 1] == checks[..n - 1];
      var p := Verified(checks[..n - 1], Start(m.entries, m.proofs), ttl, env);
      steps, after := AloneIsVerified(before, m, r, checks, n - 1, env, ttl);
      if p.failure.None? {
        var mid := after;
        steps, after := CheckAlone(steps, mid, r, p, ttl);
        assert mid.running[r := Running(checks, n, Looking, |m.proofs|, env)]
            == m.running[r := Running(checks, n, Looking, |m.proofs|, env)];
        assert mid.running - {r} == m.running;
      }
    }
  }

  /** Every check a verification has got past is justified. */
  ghost predicate RunningSound(v: Running, proofs: seq<Proof>, ttl: int) {
    && v.next <= |v.checks| && v.earlier <= |proofs|
    && forall j :: 0 <= j < v.next ==> Justified(v.checks[j], v.earlier, proofs, ttl, v.env)
  }

  ghost predicate Inv(m: Mount, ttl: int) {
    && CacheSound(m.entries, m.proofs)
    && forall r :: r in m.running ==> RunningSound(m.running[r], m.proofs, ttl)
  }

  lemma RunningStays(v: Running, proofs: seq<Proof>, more: seq<Proof>, ttl: int)
    requires RunningSound(v, proofs, ttl)
    ensures RunningSound(v, proofs + more, ttl)
  {
    forall j | 0 <= j < v.next ensures Justified(v.checks[j], v.earlier, proofs + more, ttl, v.env) {
      JustifiedStays(v.checks[j], v.earlier, proofs, more, ttl, v.env);
    }
  }

  lemma LookUpKeeps(m: Mount, r: nat, ttl: int)
    requires Inv(m, ttl) && Enabled(m, LookUp(r))
    ensures Inv(Next(m, LookUp(r), ttl), ttl)
  {
    var v := m.running[r];
    var c := v.checks[v.next];
    if Fresh(c, m.entries, ttl, v.env) { HitIsJustified(c, m.entries, m.proofs, v.earlier, ttl, v.env); }
    hide CacheSound, Fresh, Justified;
  }

  lemma KeepKeeps(m: Mount, r: nat, ttl: int)
    requires Inv(m, ttl) && Enabled(m, Keep(r))
    ensures Inv(Next(m, Keep(r), ttl), ttl)
  {
    var v := m.running[r];
    var c := v.checks[v.next];
    var proof := Proof(c.key, c.minterForm, v.env.proved(c.key));
    var proofs := m.proofs + [proof];
    StoreKeepsSound(c, m.entries, m.proofs, ttl, v.env);
    assert proofs[|m.proofs|] == proof;
    assert Justified(c, v.earlier, proofs, ttl, v.env);
    forall q | q in m.running ensures RunningSound(m.running[q], proofs, ttl) {
      RunningStays(m.running[q], m.proofs, [proof], ttl);
    }
    hide CacheSound, Stored, Justified;
  }

  lemma StepKeeps(m: Mount, step: Step, ttl: int)
    requires Inv(m, ttl) && Enabled(m, step)
    ensures Inv(Next(m, step, ttl), ttl)
  {
    match step
    case Begin(_, _, _) => hide CacheSound, Justified;
    case LookUp(r) => LookUpKeeps(m, r, ttl);
    case Try(r) => hide CacheSound;
    case Keep(r) => KeepKeeps(m, r, ttl);
    case Drop(key) =>
  }

  /** Every stored verdict is of a probe that succeeded in the second it says, however verifications
      and sweeps interleave. */
  lemma {:induction false} CacheStaysSound(steps: seq<Step>, ttl: int)
    requires After(steps, ttl).Some?
    ensures Inv(After(steps, ttl).value, ttl)
    ensures CacheSound(After(steps, ttl).value.entries, After(steps, ttl).value.proofs)
  {
    if steps != [] {
      CacheStaysSound(steps[..|steps| - 1], ttl);
      hide Next, Enabled;
      StepKeeps(After(steps[..|steps| - 1], ttl).value, steps[|steps| - 1], ttl);
    }
  }

  /** However many verifications share the cache, and wherever others' steps and the sweeps fall
      between theirs: one that has got past all its checks has, for every check it was asked about,
      one of the same key that is justified; so a remembered verdict always stands for a success of
      the same key and minter form no older than the TTL. */
  lemma VerificationIsSound(steps: seq<Step>, r: nat, checks: seq<Check>, ttl: int)
    requires After(steps, ttl).Some?
    requires var m := After(steps, ttl).value;
             r in m.running && m.running[r].next == |m.running[r].checks| && IsDeduped(checks, m.running[r].checks)
    ensures var m := After(steps, ttl).value;
            var v := m.running[r];
            forall c :: c in checks ==>
              exists d :: d in v.checks && d.key == c.key && Justified(d, v.earlier, m.proofs, ttl, v.env)
  {
    CacheStaysSound(steps, ttl);
    var m := After(steps, ttl).value;
    var v := m.running[r];
    hide After, IsDeduped, Justified, CacheSound;
    assert RunningSound(v, m.proofs, ttl);
    forall c | c in checks
      ensures exists d :: d in v.checks && d.key == c.key && Justified(d, v.earlier, m.proofs, ttl, v.env)
    {
      var i := StandsFor(checks, v.checks, c);
      assert v.checks[i] in v.checks;
    }
  }

  /** A failed check leaves no verdict: the next pass probes it again. */
  lemma FailureIsForgotten(p: Progress, c: Check, ttl: int, env: Env)
    requires StepOne(p, c, ttl, env).failure.Some? && p.failure.None?
    ensures StepOne(p, c, ttl, env).entries == p.entries && StepOne(p, c, ttl, env).proofs == p.proofs
    ensures !Fresh(c, StepOne(p, c, ttl, env).entries, ttl, env)
  {}

  /** The sweep changes no later answer of the cache but for entries it could not read and deleted:
      of what it reads it keeps exactly what could still stand in for a probe. */
  lemma SweepChangesNoHit(entries: map<string, Entry>, c: Check, ttl: int, now: Time, unreadable: set<string>,
                          undeletable: set<string>, env: Env)
    requires now <= env.lookedUp(c.key)
    ensures Fresh(c, Pruned(entries, now, ttl, unreadable, undeletable), ttl, env) <==>
              Fresh(c, entries, ttl, env) && (c.key !in unreadable || c.key in undeletable)
  {}
}
