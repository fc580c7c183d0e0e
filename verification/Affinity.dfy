/** Rendezvous affinity: the order in which a client prefers minters, for any weight function. */
module Affinity {
  import opened Order

  /** The weight of one (key, id) pair. The program takes it from a hash; nothing here depends on
      which. */
  type Weigh = (string, string) -> nat

  /** Descending weight, ties broken on the id. */
  function Prefers(w: Weigh, key: string): (string, string) -> bool {
    (a: string, b: string) => w(key, a) > w(key, b) || (w(key, a) == w(key, b) && LexLe(a, b))
  }

  function Ranked(w: Weigh, key: string, ids: seq<string>): seq<string> {
    Sort(Prefers(w, key), ids)
  }

  lemma PrefersIsTotalOrder(w: Weigh, key: string)
    ensures TotalPreorder(Prefers(w, key)) && Antisymmetric(Prefers(w, key))
  {
    LexIsTotalOrder();
    hide LexLe;
  }

  function Swap(s: seq<string>, i: nat, j: nat): seq<string>
    requires i < |s| && j < |s|
  {
    s[i := s[j]][j := s[i]]
  }

  lemma SwapPermutes(s: seq<string>, i: nat, j: nat)
    requires i < |s| && j < |s|
    ensures multiset(Swap(s, i, j)) == multiset(s)
  {}

  /** The place a die picks of `n`. */
  function Pick(die: nat, n: nat): (place: nat)
    requires n > 0
    ensures place < n && (die < n ==> place == die)
  {
    die % n
  }

  /** What the dice make of a list: each picks, of the places not settled yet, the one whose element
      comes last of them. The shuffle ends early when the source of randomness fails. */
  function Shuffled(s: seq<string>, dice: seq<nat>): (r: seq<string>)
    ensures |r| == |s|
    decreases |s|
  {
    if |s| <= 1 || dice == [] then s
    else
      var n, place := |s| - 1, Pick(dice[0], |s|);
      Shuffled(Swap(s, n, place)[..n], dice[1..]) + [s[place]]
  }

  lemma {:induction false} ShuffledPermutes(s: seq<string>, dice: seq<nat>)
    ensures multiset(Shuffled(s, dice)) == multiset(s)
    decreases |s|
  {
    if |s| > 1 && dice != [] {
      var n := |s| - 1;
      var next := Swap(s, n, Pick(dice[0], |s|));
      ShuffledPermutes(next[..n], dice[1..]);
      SwapPermutes(s, n, Pick(dice[0], |s|));
      assert next == next[..n] + [next[n]];
    }
  }

  /** The places after `i` are settled; one more die settles place `i`. */
  lemma SettleNext(s: seq<string>, i: nat, dice: seq<nat>)
    requires 0 < i < |s| && dice != []
    ensures var next := Swap(s, i, Pick(dice[0], i + 1));
            Shuffled(s[..i + 1], dice) + s[i + 1..] == Shuffled(next[..i], dice[1..]) + next[i..]
  {
    var place := Pick(dice[0], i + 1);
    var next, front := Swap(s, i, place), s[..i + 1];
    assert Swap(front, i, place)[..i] == next[..i];
    assert next[i..] == [s[place]] + s[i + 1..];
    var rest := Shuffled(next[..i], dice[1..]);
    assert (rest + [s[place]]) + s[i + 1..] == rest + ([s[place]] + s[i + 1..]);
  }

  method SwapIn(ids: array<string>, i: nat, j: nat)
    requires i < ids.Length && j < ids.Length
    modifies ids
    ensures ids[..] == Swap(old(ids[..]), i, j)
  {
    ids[i], ids[j] := ids[j], ids[i];
  }

  /** Randomises in place: `dice` are the random numbers. */
  method Shuffle(ids: array<string>, dice: seq<nat>)
    modifies ids
    ensures ids[..] == Shuffled(old(ids[..]), dice)
    ensures multiset(ids[..]) == multiset(old(ids[..]))
  {
    hide Shuffled, Pick, Swap;
    ghost var s := ids[..];
    ghost var all := Shuffled(s, dice);
    ShuffledPermutes(s, dice);
    assert s[..|s|] == s && dice[0..] == dice;
    var i, thrown := ids.Length - 1, 0;
    while i > 0
      invariant -1 <= i < ids.Length && thrown <= |dice| && ids[..] == s && |s| == ids.Length
      invariant all == Shuffled(s[..i + 1], dice[thrown..]) + s[i + 1..]
    {
      if thrown == |dice| {
        NotShuffled(s[..i + 1], dice[thrown..]);
        assert s == s[..i + 1] + s[i + 1..];
        return;
      }
      SettleNext(s, i, dice[thrown..]);
      var j := Pick(dice[thrown], i + 1);
      SwapIn(ids, i, j);
      s := Swap(s, i, j);
      assert dice[thrown..][1..] == dice[thrown + 1..];
      i, thrown := i - 1, thrown + 1;
    }
    NotShuffled(s[..i + 1], dice[thrown..]);
    assert s == s[..i + 1] + s[i + 1..];
  }

  lemma NotShuffled(s: seq<string>, dice: seq<nat>)
    requires |s| <= 1 || dice == []
    ensures Shuffled(s, dice) == s
  {}

  /** One die per place but the first, each with as many faces as there are places left. */
  predicate Thrown(dice: seq<nat>, n: nat) {
    |dice| == (if n == 0 then 0 else n - 1) && forall k :: 0 <= k < |dice| ==> dice[k] < n - k
  }

  lemma ThrownNext(die: nat, rest: seq<nat>, n: nat)
    requires n > 1
    ensures Thrown([die] + rest, n) <==> die < n && Thrown(rest, n - 1)
  {
    var dice := [die] + rest;
    if Thrown(dice, n) {
      assert dice[0] == die;
      forall k | 0 <= k < |rest| ensures rest[k] < n - 1 - k { assert dice[k + 1] == rest[k]; }
    }
  }

  /** Putting the element that is to come last there leaves the same ones to be ordered. */
  lemma LastSettled(s: seq<string>, t: seq<string>, j: nat)
    requires multiset(s) == multiset(t) && |s| == |t| > 1 && j < |s| && s[j] == t[|t| - 1]
    ensures multiset(Swap(s, |s| - 1, j)[..|s| - 1]) == multiset(t[..|t| - 1])
  {
    hide Swap;
    SwapLast(s, j);
    SwapPermutes(s, |s| - 1, j);
    DropLast(Swap(s, |s| - 1, j));
    DropLast(t);
  }

  lemma SwapLast(s: seq<string>, j: nat)
    requires j < |s|
    ensures var next := Swap(s, |s| - 1, j); |next| == |s| && next[|s| - 1] == s[j]
  {}

  lemma DropLast(s: seq<string>)
    requires s != []
    ensures multiset(s[..|s| - 1]) == multiset(s) - multiset{s[|s| - 1]}
  {
    assert s == s[..|s| - 1] + [s[|s| - 1]];
  }

  lemma SameParts(x: seq<string>, e: string, y: seq<string>, f: string)
    requires |x| == |y| && x + [e] == y + [f]
    ensures x == y && e == f
  {
    assert (x + [e])[|x|] == e && (y + [f])[|y|] == f;
    assert x == (x + [e])[..|x|] && y == (y + [f])[..|y|];
  }

  lemma SameLength(s: seq<string>, t: seq<string>)
    requires multiset(s) == multiset(t)
    ensures |s| == |t| && forall x :: x in s <==> x in t
  {
    assert |s| == |multiset(s)| && |t| == |multiset(t)|;
    forall x ensures x in s <==> x in t { assert x in s <==> x in multiset(s); }
  }

  /** Some throw leads to every order of the list. */
  lemma {:induction false} EveryOrderIsThrown(s: seq<string>, t: seq<string>) returns (dice: seq<nat>)
    requires multiset(s) == multiset(t)
    ensures Thrown(dice, |s|) && Shuffled(s, dice) == t
    decreases |s|
  {
    SameLength(s, t);
    dice := [];
    if |s| > 1 {
      var n := |s| - 1;
      assert t[n] in t;
      var j :| 0 <= j <= n && s[j] == t[n];
      LastSettled(s, t, j);
      var rest := EveryOrderIsThrown(Swap(s, n, j)[..n], t[..n]);
      dice := [j] + rest;
      ThrownNext(j, rest, |s|);
      assert dice[1..] == rest;
    } else if |s| == 1 {
      assert t[0] in t;
    }
  }

  /** And no two throws lead to the same order of different ids: the shuffle is fair. */
  lemma {:induction false} OrdersAreThrownOnce(s: seq<string>, a: seq<nat>, b: seq<nat>)
    requires Distinct(s) && Thrown(a, |s|) && Thrown(b, |s|) && Shuffled(s, a) == Shuffled(s, b)
    ensures a == b
    decreases |s|
  {
    if |s| > 1 {
      var n := |s| - 1;
      assert a == [a[0]] + a[1..] && b == [b[0]] + b[1..];
      ThrownNext(a[0], a[1..], |s|);
      ThrownNext(b[0], b[1..], |s|);
      var x, y := Shuffled(Swap(s, n, a[0])[..n], a[1..]), Shuffled(Swap(s, n, b[0])[..n], b[1..]);
      hide Thrown, Swap;
      assert x + [s[a[0]]] == y + [s[b[0]]];
      hide Shuffled;
      SameParts(x, s[a[0]], y, s[b[0]]);
      SwapDistinct(s, n, a[0]);
      OrdersAreThrownOnce(Swap(s, n, a[0])[..n], a[1..], b[1..]);
    }
  }

  lemma SwapDistinct(s: seq<string>, n: nat, j: nat)
    requires Distinct(s) && n == |s| - 1 && j <= n
    ensures Distinct(Swap(s, n, j)[..n])
  {}

  /** Without a key the order is random, but it is always an order of the same ids. */
  method OrderIds(w: Weigh, key: string, ids: seq<string>, dice: seq<nat>) returns (ordered: seq<string>)
    ensures multiset(ordered) == multiset(ids)
    ensures key != "" ==> ordered == Ranked(w, key, ids)
  {
    if key == "" {
      var copied := new string[|ids|](i requires 0 <= i < |ids| => ids[i]);
      assert copied[..] == ids;
      Shuffle(copied, dice);
      return copied[..];
    }
    return Ranked(w, key, ids);
  }

  /** `OrderIds` over the keys of a map, however the map is iterated. */
  method OrderKeys<V>(w: Weigh, key: string, states: map<string, V>, dice: seq<nat>) returns (ordered: seq<string>)
    ensures Distinct(ordered) && forall id :: id in ordered <==> id in states
    ensures key != "" ==> ordered == Preference(w, key, states.Keys)
  {
    var ids := ListKeys(states.Keys);
    ordered := OrderIds(w, key, ids, dice);
    DistinctMultiset(ids);
    DistinctFromMultiset(ordered);
    forall id ensures id in ordered <==> id in ids { assert id in ordered <==> id in multiset(ordered); }
    RankedByIdsAlone(w, key, ids, Enumerate(states.Keys));
  }

  /** The preference order of a set of minters. */
  ghost function Preference(w: Weigh, key: string, ids: set<string>): seq<string> {
    Ranked(w, key, Enumerate(ids))
  }

  /** The order depends on the set of ids alone, not on how they were listed. */
  lemma RankedByIdsAlone(w: Weigh, key: string, a: seq<string>, b: seq<string>)
    requires Distinct(a) && Distinct(b) && forall id :: id in a <==> id in b
    ensures Ranked(w, key, a) == Ranked(w, key, b)
  {
    DistinctMultiset(a);
    DistinctMultiset(b);
    assert forall id :: multiset(a)[id] == multiset(b)[id];
    PrefersIsTotalOrder(w, key);
    SortSorted(Prefers(w, key), a);
    SortSorted(Prefers(w, key), b);
    SortedUnique(Prefers(w, key), Ranked(w, key, a), Ranked(w, key, b));
  }

  function Other(id: string): string -> bool {
    (x: string) => x != id
  }

  lemma PreferenceFacts(w: Weigh, key: string, ids: set<string>)
    ensures Distinct(Preference(w, key, ids)) && Sorted(Prefers(w, key), Preference(w, key, ids))
    ensures forall id :: id in Preference(w, key, ids) <==> id in ids
    ensures |Preference(w, key, ids)| == 0 <==> ids == {}
  {
    var p := Preference(w, key, ids);
    PrefersIsTotalOrder(w, key);
    SortSorted(Prefers(w, key), Enumerate(ids));
    DistinctMultiset(Enumerate(ids));
    DistinctFromMultiset(p);
    forall id ensures id in p <==> id in ids { assert id in p <==> id in multiset(p); }
    if |p| > 0 { assert p[0] in p; }
  }

  /** The order in the weights themselves: heavier first, and the smaller id of two that weigh the
      same. */
  lemma HeavierFirst(w: Weigh, key: string, ids: set<string>, i: nat, j: nat)
    requires i < j < |Preference(w, key, ids)|
    ensures var p := Preference(w, key, ids);
            w(key, p[i]) > w(key, p[j]) || (w(key, p[i]) == w(key, p[j]) && LexLess(p[i], p[j]))
  {
    PreferenceFacts(w, key, ids);
    hide LexLe;
  }

  /** Removing a minter leaves every client's order of the others as it was. */
  lemma RemovalKeepsOrder(w: Weigh, key: string, ids: set<string>, gone: string)
    ensures Preference(w, key, ids - {gone}) == Filter(Other(gone), Preference(w, key, ids))
  {
    var all, left := Enumerate(ids), Enumerate(ids - {gone});
    FilterMembers(Other(gone), all);
    FilterDistinct(Other(gone), all);
    DistinctMultiset(left);
    DistinctMultiset(Filter(Other(gone), all));
    assert forall id :: multiset(left)[id] == multiset(Filter(Other(gone), all))[id];
    assert multiset(left) == multiset(Filter(Other(gone), all));
    PrefersIsTotalOrder(w, key);
    FilterOfSort(Prefers(w, key), Other(gone), all, left);
  }

  /** A client's first choice is the minter it prefers to every other. */
  lemma FirstChoice(w: Weigh, key: string, ids: set<string>, id: string)
    requires id in ids
    ensures |Preference(w, key, ids)| > 0
    ensures Preference(w, key, ids)[0] == id <==> forall x :: x in ids ==> Prefers(w, key)(id, x)
  {
    var p := Preference(w, key, ids);
    PreferenceFacts(w, key, ids);
    PrefersIsTotalOrder(w, key);
    hide Preference;
    forall x | x in ids ensures Prefers(w, key)(p[0], x) {
      var i :| 0 <= i < |p| && p[i] == x;
      assert Prefers(w, key)(x, x);
    }
    if forall x :: x in ids ==> Prefers(w, key)(id, x) {
      assert p[0] in p;
      assert Prefers(w, key)(id, p[0]) && Prefers(w, key)(p[0], id);
    }
  }

  /** Adding a minter changes a client's first choice only to the new one, and exactly when the
      client prefers it to its former first choice. */
  lemma AdditionMovesOnlyToNew(w: Weigh, key: string, ids: set<string>, added: string)
    requires ids != {} && added !in ids
    ensures |Preference(w, key, ids)| > 0 && |Preference(w, key, ids + {added})| > 0
    ensures var first := Preference(w, key, ids)[0];
            Preference(w, key, ids + {added})[0] == if Prefers(w, key)(added, first) then added else first
  {
    PreferenceFacts(w, key, ids);
    var first := Preference(w, key, ids)[0];
    assert first in Preference(w, key, ids);
    PrefersIsTotalOrder(w, key);
    FirstChoice(w, key, ids, first);
    FirstChoice(w, key, ids + {added}, added);
    FirstChoice(w, key, ids + {added}, first);
    hide Preference, Prefers;
    assert Prefers(w, key)(first, added) || Prefers(w, key)(added, first);
    if Prefers(w, key)(added, first) {
      forall x | x in ids + {added} ensures Prefers(w, key)(added, x) {
        if x in ids { assert Prefers(w, key)(first, x); }
        assert Prefers(w, key)(added, added);
      }
    }
  }
}
