/** Whole inventories: following the returned cursor until there is no more, while storage changes
    between the requests, records vanish during them, and some of them fail and are repeated. */
module IssuedListRuns {
  import opened Common
  import opened Order
  import opened IssuedList

  /** What one request finds: the storage, the records that vanish while it reads them, and the
      storage errors it meets. */
  datatype Request = Request(store: Store, gone: set<At>, faults: Faults)

  const NO_FAULTS := Faults({}, {})

  ghost function Answered(r: Request, after: string, limit: int): Reply {
    Answer(r.store, r.gone, after, limit, r.faults)
  }

  datatype Inventory = Inventory(pages: seq<seq<At>>, finished: bool)

  /** A client that repeats a request that failed, and otherwise follows the cursor. */
  ghost function Follow(requests: seq<Request>, after: string, limit: int): Inventory
    decreases |requests|
  {
    if requests == [] then Inventory([], false)
    else
      match Answered(requests[0], after, limit)
      case Refused => Inventory([], false)
      case Unavailable => Follow(requests[1..], after, limit)
      case Page(entries, more, next) =>
        if !more then Inventory([entries], true)
        else
          var rest := Follow(requests[1..], next, limit);
          Inventory([entries] + rest.pages, rest.finished)
  }

  function Flatten(pages: seq<seq<At>>): seq<At> {
    if pages == [] then [] else pages[0] + Flatten(pages[1..])
  }

  ghost predicate Usable(requests: seq<Request>, prefixes: nat, after: string, limit: int) {
    && (forall r :: r in requests ==> |r.store| == prefixes)
    && PageLimit(limit).Some? && ParseCursor(after, prefixes).Some?
  }

  /** No request of the run overruns. */
  ghost predicate Smooth(requests: seq<Request>, prefixes: nat, after: string, limit: int)
    requires Usable(requests, prefixes, after, limit)
    decreases |requests|
  {
    requests == [] ||
    var r, at, rest := requests[0], ParseCursor(after, prefixes).value, requests[1..];
    match Answered(r, after, limit)
    case Refused => true
    case Unavailable => Usable(rest, prefixes, after, limit) ==> Smooth(rest, prefixes, after, limit)
    case Page(_, more, next) =>
      && !Overrun(r.store, r.gone, at.prefix, at.key, PageLimit(limit).value, at)
      && (more && Usable(rest, prefixes, next, limit) ==> Smooth(rest, prefixes, next, limit))
  }

  /** A record that is there at every request and vanishes during none. */
  ghost predicate Throughout(requests: seq<Request>, e: At) {
    e.key != "" && forall r :: r in requests ==> Stays(r.store, r.gone, e)
  }

  /** A request fails or answers with the page, and can be followed by the next either way. */
  lemma NextUsable(requests: seq<Request>, prefixes: nat, after: string, limit: int)
    requires requests != [] && Usable(requests, prefixes, after, limit)
    ensures var reply := Answered(requests[0], after, limit);
            && reply in {Unavailable, Listing(requests[0].store, requests[0].gone, after, limit)}
            && (reply.Unavailable? ==> Usable(requests[1..], prefixes, after, limit))
            && (reply.Page? && reply.more ==> Usable(requests[1..], prefixes, reply.nextAfter, limit))
            && !reply.Refused?
  {
    hide PageFrom, ParseCursor, Breaks;
    ListingCovers(requests[0].store, requests[0].gone, after, limit);
  }

  /** Nothing is returned twice, whatever is inserted, deleted or inserted again: the pages of a run
      are in strictly ascending order, and after the position it started from. */
  lemma {:induction false} NeverTwice(requests: seq<Request>, prefixes: nat, after: string, limit: int)
    requires Usable(requests, prefixes, after, limit)
    ensures var all := Flatten(Follow(requests, after, limit).pages);
            InOrder(all) && forall e :: e in all ==> Before(ParseCursor(after, prefixes).value, e)
    decreases |requests|
  {
    hide PageFrom, ParseCursor, LexLe, Answered;
    if requests != [] {
      var r := requests[0];
      var at := ParseCursor(after, prefixes).value;
      var reply := Answered(r, after, limit);
      ListingCovers(r.store, r.gone, after, limit);
      NextUsable(requests, prefixes, after, limit);
      if reply.Unavailable? {
        NeverTwice(requests[1..], prefixes, after, limit);
      } else if reply.more {
        var next := ParseCursor(reply.nextAfter, prefixes).value;
        var rest := Flatten(Follow(requests[1..], reply.nextAfter, limit).pages);
        NeverTwice(requests[1..], prefixes, reply.nextAfter, limit);
        assert Follow(requests, after, limit).pages[1..] == Follow(requests[1..], reply.nextAfter, limit).pages;
        OrderJoins(at, reply.entries, next, rest);
      } else {
        assert Follow(requests, after, limit).pages == [reply.entries];
        assert Flatten([reply.entries]) == reply.entries + Flatten([]);
      }
    }
  }

  lemma BeforeOrder(a: At, b: At, c: At)
    ensures Before(a, b) && Before(b, c) ==> Before(a, c)
    ensures a == b || Before(a, b) || Before(b, a)
    ensures !Before(a, a) && !(Before(a, b) && Before(b, a))
  {
    LexIsTotalOrder();
  }

  lemma OrderJoins(start: At, page: seq<At>, next: At, rest: seq<At>)
    requires InOrder(page) && InOrder(rest) && (next == start || Before(start, next))
    requires forall e :: e in page ==> Before(start, e) && !Before(next, e)
    requires forall e :: e in rest ==> Before(next, e)
    ensures InOrder(page + rest) && forall e :: e in page + rest ==> Before(start, e)
  {
    hide Before;
    forall i, j | 0 <= i < |page| && 0 <= j < |rest| ensures Before(page[i], rest[j]) {
      assert page[i] in page && rest[j] in rest;
      BeforeOrder(next, rest[j], page[i]);
      BeforeOrder(page[i], next, rest[j]);
    }
    forall e | e in rest ensures Before(start, e) { BeforeOrder(start, next, e); }
  }

  /** A finished run without an overrun returns every record that is there throughout. */
  lemma {:induction false} FinishedCovers(requests: seq<Request>, prefixes: nat, after: string, limit: int, e: At)
    requires Usable(requests, prefixes, after, limit) && Smooth(requests, prefixes, after, limit)
    requires (forall r :: r in requests ==> WellFormed(r.store)) && Throughout(requests, e)
    requires Follow(requests, after, limit).finished && Before(ParseCursor(after, prefixes).value, e)
    ensures e in Flatten(Follow(requests, after, limit).pages)
    decreases |requests|
  {
    hide PageFrom, ParseCursor, LexLe, Overrun, Answered;
    var r := requests[0];
    assert r in requests;
    var reply := Answered(r, after, limit);
    NextUsable(requests, prefixes, after, limit);
    if reply.Unavailable? {
      FinishedCovers(requests[1..], prefixes, after, limit, e);
    } else {
      PageIsCompleteExactly(r.store, r.gone, after, limit);
      assert Served(reply, e, prefixes);
      if e !in reply.entries {
        FinishedCovers(requests[1..], prefixes, reply.nextAfter, limit, e);
        assert Follow(requests, after, limit).pages[1..] == Follow(requests[1..], reply.nextAfter, limit).pages;
      }
    }
  }

  lemma {:induction false} InOrderOnce(s: seq<At>, e: At)
    requires InOrder(s)
    ensures multiset(s)[e] == if e in s then 1 else 0
  {
    if s != [] {
      assert s == [s[0]] + s[1..];
      InOrderOnce(s[1..], e);
      BeforeOrder(s[0], s[0], s[0]);
      forall j | 0 <= j < |s[1..]| ensures s[1..][j] != s[0] {
        assert Before(s[0], s[j + 1]);
      }
    }
  }

  /** Following the cursor from the start until there is no more returns every record that is there
      throughout exactly once, and no record twice, whatever else comes and goes and however often a
      request has to be repeated. */
  lemma PagingIsExact(requests: seq<Request>, prefixes: nat, limit: int)
    requires Usable(requests, prefixes, "", limit) && Smooth(requests, prefixes, "", limit)
    requires forall r :: r in requests ==> WellFormed(r.store)
    requires Follow(requests, "", limit).finished
    ensures var all := multiset(Flatten(Follow(requests, "", limit).pages));
            && (forall e :: all[e] <= 1)
            && (forall e :: Throughout(requests, e) ==> all[e] == 1)
  {
    hide PageFrom, Smooth, Follow, LexLe;
    var all := Flatten(Follow(requests, "", limit).pages);
    NeverTwice(requests, prefixes, "", limit);
    forall e ensures multiset(all)[e] == if e in all then 1 else 0 { InOrderOnce(all, e); }
    forall e | Throughout(requests, e) ensures e in all {
      NothingBelowEmpty(e.key);
      assert Before(At(0, ""), e);
      FinishedCovers(requests, prefixes, "", limit, e);
    }
  }

  lemma {:induction false} NoVanishNoOverrun(store: Store, index: nat, after: string, room: nat, last: At)
    ensures !Overrun(store, {}, index, after, room, last)
    decreases |store| - index
  {
    hide Leg;
    if index < |store| && room > 0 {
      var leg := Leg(store, {}, index, after, room, last);
      NoVanishNoOverrun(store, index + 1, "", room - |leg.0|, leg.1);
    }
  }

  /** When nothing vanishes during a request, no request overruns, whatever happens between them. */
  lemma {:induction false} BetweenRequestsIsSmooth(requests: seq<Request>, prefixes: nat, after: string, limit: int)
    requires Usable(requests, prefixes, after, limit)
    requires forall r :: r in requests ==> r.gone == {}
    ensures Smooth(requests, prefixes, after, limit)
    decreases |requests|
  {
    hide PageFrom, ParseCursor, LexLe, Overrun, Answered;
    if requests != [] {
      var r, at := requests[0], ParseCursor(after, prefixes).value;
      assert r in requests;
      NoVanishNoOverrun(r.store, at.prefix, at.key, PageLimit(limit).value, at);
      NextUsable(requests, prefixes, after, limit);
      var reply := Answered(r, after, limit);
      if reply.Unavailable? {
        BetweenRequestsIsSmooth(requests[1..], prefixes, after, limit);
      } else if reply.more {
        BetweenRequestsIsSmooth(requests[1..], prefixes, reply.nextAfter, limit);
      }
    }
  }

  /** One record vanishing in a full page hides the records after it: the page comes back short,
      the walk takes that for the end of the prefix, and "c" is never returned. */
  lemma VanishingHidesTheRest()
    ensures var store, gone := [{"a", "b", "c"}], {At(0, "a")};
            Listing(store, gone, "", 2) == Page([At(0, "b")], false, "")
            && Stays(store, gone, At(0, "c"))
  {
    hide LexLe, Filter, KeysAfter, SortedKeys;
    var store: Store, gone := [{"a", "b", "c"}], {At(0, "a")};
    AbcKeys(store);
    AbcKept(gone);
    assert First(2, ["a", "b", "c"]) == ["a", "b"];
    assert Leg(store, gone, 0, "", 2, At(0, "")) == ([At(0, "b")], At(0, "b")) by {
      assert Tag(0, ["b"]) == [At(0, "b")];
    }
    assert PageFrom(store, gone, 1, "", 1, At(0, "b")) == ([], At(0, "b"));
    assert PageFrom(store, gone, 0, "", 2, At(0, "")) == ([At(0, "b")], At(0, "b")) by {
      hide Leg;
      assert [At(0, "b")] + [] == [At(0, "b")];
    }
  }

  lemma AbcKeys(store: Store)
    requires store == [{"a", "b", "c"}]
    ensures KeysAfter(store, 0, "") == ["a", "b", "c"]
  {
    KeysAfterFacts(store, 0, "");
    AbcAscends();
    Singles();
    hide LexLe, Filter, KeysAfter, Ascending;
    forall k ensures k in KeysAfter(store, 0, "") <==> k in ["a", "b", "c"] {
      assert k in store[0] <==> k == "a" || k == "b" || k == "c";
    }
    AscendingUnique(KeysAfter(store, 0, ""), ["a", "b", "c"]);
  }

  lemma AbcAscends()
    ensures Ascending(["a", "b", "c"])
  {
    Singles();
    hide LexLe;
  }

  lemma AbcKept(gone: set<At>)
    requires gone == {At(0, "a")}
    ensures Filter(Present(gone, 0), ["a", "b"]) == ["b"]
  {
    assert ["a", "b"][1..] == ["b"] && ["b"][1..] == [];
    assert Filter(Present(gone, 0), ["b"]) == ["b"] + [];
    assert Filter(Present(gone, 0), ["a", "b"]) == [] + ["b"];
  }

  lemma Singles()
    ensures LexLess("a", "b") && LexLess("b", "c") && LexLess("a", "c")
    ensures LexLess("", "a") && LexLess("", "b") && LexLess("", "c")
  {}

  // ----- unchanged storage ---------------------------------------------------------------

  /** The flat listing: every prefix's keys in order, one prefix after the other. */
  ghost function Flat(store: Store, index: nat): seq<At>
    decreases |store| - index
  {
    if index >= |store| then [] else Tag(index, SortedKeys(store[index])) + Flat(store, index + 1)
  }

  ghost function Rest(store: Store, index: nat, after: string): seq<At> {
    if index >= |store| then [] else Tag(index, KeysAfter(store, index, after)) + Flat(store, index + 1)
  }

  lemma RestFromStart(store: Store, index: nat)
    requires WellFormed(store)
    ensures Rest(store, index, "") == Flat(store, index)
  {
    if index < |store| {
      KeysAfterFacts(store, index, "");
      forall k | k in store[index] ensures LexLess("", k) { NothingBelowEmpty(k); }
      AscendingUnique(KeysAfter(store, index, ""), SortedKeys(store[index]));
    }
  }

  lemma {:induction false} NothingGone(index: nat, page: seq<string>)
    ensures Filter(Present({}, index), page) == page
  {
    if page != [] { NothingGone(index, page[1..]); }
  }

  lemma KeysAfterKey(store: Store, index: nat, after: string, i: nat)
    requires index < |store| && i < |KeysAfter(store, index, after)|
    ensures KeysAfter(store, index, KeysAfter(store, index, after)[i]) == KeysAfter(store, index, after)[i + 1..]
  {
    var keys := KeysAfter(store, index, after);
    var later := KeysAfter(store, index, keys[i]);
    KeysAfterFacts(store, index, after);
    KeysAfterFacts(store, index, keys[i]);
    LexIsTotalOrder();
    forall k ensures k in later <==> k in keys[i + 1..] {
      assert keys[i] in keys;
      if k in later {
        var j :| 0 <= j < |keys| && keys[j] == k;
        assert j > i;
        assert keys[i + 1..][j - i - 1] == k;
      }
    }
    AscendingUnique(later, keys[i + 1..]);
  }

  /** A leg that meets nothing missing takes the front of what is left of its prefix. */
  lemma WholeLeg(store: Store, index: nat, after: string, room: nat, last: At)
    requires index < |store| && room > 0
    ensures var leg, keys := Leg(store, {}, index, after, room, last), Tag(index, KeysAfter(store, index, after));
            && leg.0 == First(room, keys)
            && (|keys| >= room ==>
                  leg.1.prefix == index && Rest(store, index, leg.1.key) == Rest(store, index, after)[room..])
  {
    hide LexLe, Filter, KeysAfter, Flat;
    var keys := KeysAfter(store, index, after);
    NothingGone(index, First(room, keys));
    assert Tag(index, First(room, keys)) == First(room, Tag(index, keys));
    if |keys| >= room {
      KeysAfterKey(store, index, after, room - 1);
      assert Reached(last, index, First(room, keys)) == At(index, keys[room - 1]);
      assert Tag(index, keys)[room..] == Tag(index, keys[room..]);
      DropJoins(room, Tag(index, keys), Flat(store, index + 1));
    }
  }

  lemma DropJoins(room: nat, a: seq<At>, b: seq<At>)
    requires room <= |a|
    ensures (a + b)[room..] == a[room..] + b && First(room, a + b) == First(room, a)
  {}

  lemma {:induction false} PageOfRest(store: Store, index: nat, after: string, room: nat, last: At)
    requires WellFormed(store) && room > 0
    ensures var walk := PageFrom(store, {}, index, after, room, last);
            && walk.0 == First(room, Rest(store, index, after))
            && (|walk.0| == room ==> Rest(store, walk.1.prefix, walk.1.key) == Rest(store, index, after)[room..])
    decreases |store| - index
  {
    hide Leg, KeysAfter, Filter, LexLe, Flat;
    if index < |store| {
      var keys := Tag(index, KeysAfter(store, index, after));
      var leg := Leg(store, {}, index, after, room, last);
      WholeLeg(store, index, after, room, last);
      if |keys| < room {
        RestFromStart(store, index + 1);
        PageOfRest(store, index + 1, "", room - |keys|, leg.1);
        FirstJoins(room, keys, Flat(store, index + 1));
      } else {
        assert First(room, keys) + [] == First(room, keys);
        DropJoins(room, keys, Flat(store, index + 1));
      }
    }
  }

  lemma FirstJoins(room: nat, a: seq<At>, b: seq<At>)
    requires |a| < room
    ensures First(room, a + b) == a + First(room - |a|, b)
    ensures |First(room - |a|, b)| == room - |a| ==> |a + b| >= room && (a + b)[room..] == b[room - |a|..]
  {}

  lemma AnsweredCleanly(store: Store, after: string, limit: int)
    requires PageLimit(limit).Some? && ParseCursor(after, |store|).Some?
    ensures Answered(Request(store, {}, NO_FAULTS), after, limit) == Listing(store, {}, after, limit)
  {
    hide PageFrom, ParseCursor, Breaks, Listing;
    var at := ParseCursor(after, |store|).value;
    NoFaultNoBreak(store, {}, at.prefix, at.key, PageLimit(limit).value, at);
  }

  lemma {:induction false} UnchangedFrom(store: Store, requests: seq<Request>, after: string, limit: int)
    requires WellFormed(store) && Usable(requests, |store|, after, limit)
    requires forall r :: r in requests ==> r == Request(store, {}, NO_FAULTS)
    requires var at := ParseCursor(after, |store|).value;
             |requests| > |Rest(store, at.prefix, at.key)| / PageLimit(limit).value
    ensures var at := ParseCursor(after, |store|).value;
            var rest := Rest(store, at.prefix, at.key);
            var all := Follow(requests, after, limit);
            && all.finished && Flatten(all.pages) == rest
            && |all.pages| == |rest| / PageLimit(limit).value + 1
    decreases |requests|
  {
    hide PageFrom, ParseCursor, Rest, Answered;
    var at, n := ParseCursor(after, |store|).value, PageLimit(limit).value;
    var rest := Rest(store, at.prefix, at.key);
    assert requests[0] in requests;
    var reply := Listing(store, {}, after, limit);
    AnsweredCleanly(store, after, limit);
    ListingCovers(store, {}, after, limit);
    PageOfRest(store, at.prefix, at.key, n, at);
    Quotient(|rest|, n);
    if reply.more {
      assert forall r :: r in requests[1..] ==> r in requests;
      NextUsable(requests, |store|, after, limit);
      UnchangedFrom(store, requests[1..], reply.nextAfter, limit);
      assert Follow(requests, after, limit).pages[1..] == Follow(requests[1..], reply.nextAfter, limit).pages;
      assert rest == rest[..n] + rest[n..];
    } else {
      assert Follow(requests, after, limit).pages == [reply.entries];
      assert Flatten([reply.entries]) == reply.entries + Flatten([]);
    }
  }

  lemma Quotient(m: nat, n: nat)
    requires n > 0
    ensures if m < n then m / n == 0 else m / n == (m - n) / n + 1
  {
    if m < n {
      DivisionIsUnique(m, n, 0, m);
    } else {
      var q, r := (m - n) / n, (m - n) % n;
      assert (q + 1) * n == q * n + n;
      DivisionIsUnique(m, n, q + 1, r);
    }
  }

  lemma DivisionIsUnique(m: nat, n: nat, q: nat, r: nat)
    requires n > 0 && r < n && m == q * n + r
    ensures m / n == q
  {
    var d := m / n - q;
    assert m == (m / n) * n + m % n;
    assert d * n == (m / n) * n - q * n;
    assert d >= 1 ==> d * n >= n;
    assert d <= -1 ==> d * n <= 0 - n;
  }

  /** On storage that does not change, following the cursor returns the flat listing, in order, in
      one more request than full pages it holds. */
  lemma PagingIsTheListing(store: Store, requests: seq<Request>, limit: int)
    requires WellFormed(store) && PageLimit(limit).Some?
    requires forall r :: r in requests ==> r == Request(store, {}, NO_FAULTS)
    requires |requests| > |Flat(store, 0)| / PageLimit(limit).value
    ensures var all := Follow(requests, "", limit);
            && all.finished && Flatten(all.pages) == Flat(store, 0)
            && |all.pages| == |Flat(store, 0)| / PageLimit(limit).value + 1
  {
    hide Follow;
    RestFromStart(store, 0);
    UnchangedFrom(store, requests, "", limit);
  }
}
