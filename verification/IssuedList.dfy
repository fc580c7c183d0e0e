/** The paged inventory of issued credentials: a listing over several storage prefixes, resumed from
    a cursor. One request is atomic except that a record may vanish between its page being listed
    and its entry being read; between requests storage may change in any way. */
module IssuedList {
  import opened Common
  import opened Order

  const DEFAULT_LIMIT := 200
  const MAX_LIMIT := 1000

  /** A position across the prefixes. An entry is the position of its key. */
  datatype At = At(prefix: nat, key: string)

  /** The response carries the keys alone; an id never occurs under two prefixes. */
  datatype Reply = Refused | Unavailable | Page(entries: seq<At>, more: bool, nextAfter: string)

  /** Storage errors one request meets: listing a prefix, reading a record. */
  datatype Faults = Faults(listing: set<nat>, reading: set<At>)

  type Fields = map<string, string>

  /** The fields of a tracking record that are published, and nothing else of it. */
  const PUBLISHED := {
    "role", "minter", "minter_set", "created", "expires_at", "app_object_id", "requested_by_token_accessor",
    "requested_by_entity_id", "requested_by_parent_entity_id", "requested_by_unit_id", "requested_by_lineage_source"
  }

  /** An unreadable record is published with no fields. */
  function Published(record: Option<Fields>): Fields {
    match record
    case None => map[]
    case Some(fields) => map k | k in fields && k in PUBLISHED :: fields[k]
  }

  /** The whole vocabulary. */
  lemma VocabularyIs(field: string)
    ensures field in PUBLISHED <==>
              || field == "role" || field == "minter" || field == "minter_set" || field == "created"
              || field == "expires_at" || field == "app_object_id" || field == "requested_by_token_accessor"
              || field == "requested_by_entity_id" || field == "requested_by_parent_entity_id"
              || field == "requested_by_unit_id" || field == "requested_by_lineage_source"
  {}

  /** The keys under each prefix. */
  type Store = seq<set<string>>

  ghost predicate WellFormed(store: Store) {
    forall i :: 0 <= i < |store| ==> "" !in store[i]
  }

  // ----- cursors -------------------------------------------------------------------------

  predicate IsDigit(c: char) {
    '0' <= c <= '9'
  }

  function Digit(n: nat): char
    requires n < 10
  {
    '0' + n as char
  }

  function Itoa(n: nat): string {
    if n < 10 then [Digit(n)] else Itoa(n / 10) + [Digit(n % 10)]
  }

  function Digits(s: string): Option<int> {
    if s == "" then Some(0)
    else if !IsDigit(s[|s| - 1]) then None
    else match Digits(s[..|s| - 1])
      case None => None
      case Some(n) => Some(10 * n + (s[|s| - 1] - '0') as int)
  }

  /** An optional sign and at least one digit. */
  function Atoi(s: string): Option<int> {
    var signed := s != "" && (s[0] == '+' || s[0] == '-');
    var digits := if signed then s[1..] else s;
    if digits == "" then None
    else match Digits(digits)
      case None => None
      case Some(n) => Some(if signed && s[0] == '-' then -n else n)
  }

  function CursorText(at: At): string {
    Itoa(at.prefix) + "|" + at.key
  }

  /** The index of the first separator, or the length. */
  function Cut(s: string): (i: nat)
    ensures i <= |s| && (forall k :: 0 <= k < i ==> s[k] != '|') && (i < |s| ==> s[i] == '|')
  {
    if s == "" || s[0] == '|' then 0 else 1 + Cut(s[1..])
  }

  function ParseCursor(value: string, prefixes: nat): Option<At> {
    if value == "" then Some(At(0, ""))
    else if Cut(value) == |value| then None
    else match Atoi(value[..Cut(value)])
      case None => None
      case Some(at) => if at < 0 || at >= prefixes then None else Some(At(at, value[Cut(value) + 1..]))
  }

  lemma {:induction false} ItoaDigits(n: nat)
    ensures Itoa(n) != "" && Digits(Itoa(n)) == Some(n)
    ensures forall k :: 0 <= k < |Itoa(n)| ==> IsDigit(Itoa(n)[k])
  {
    if n < 10 {
      assert Itoa(n)[..0] == "";
    } else {
      ItoaDigits(n / 10);
      assert Itoa(n)[..|Itoa(n)| - 1] == Itoa(n / 10);
    }
  }

  lemma CutAt(a: string, b: string)
    requires forall k :: 0 <= k < |a| ==> a[k] != '|'
    ensures Cut(a + "|" + b) == |a|
  {
    var s := a + "|" + b;
    assert s[|a|] == '|';
    assert forall k :: 0 <= k < |a| ==> s[k] == a[k];
  }

  /** A cursor survives being written into a response and passed back, whatever its key holds. */
  lemma CursorRoundTrip(at: At, prefixes: nat)
    ensures ParseCursor(CursorText(at), prefixes) == if at.prefix < prefixes then Some(at) else None
  {
    ItoaDigits(at.prefix);
    CutAt(Itoa(at.prefix), at.key);
    var s := CursorText(at);
    assert s[..|Itoa(at.prefix)|] == Itoa(at.prefix);
    assert s[|Itoa(at.prefix)| + 1..] == at.key;
  }

  lemma {:induction false} DigitsOnly(s: string)
    ensures Digits(s).Some? <==> forall k :: 0 <= k < |s| ==> '0' <= s[k] <= '9'
    ensures Digits(s).Some? ==> Digits(s).value >= 0
  {
    if s != "" { DigitsOnly(s[..|s| - 1]); }
  }

  /** A number is an optional sign and at least one digit, and nothing else. */
  lemma NumbersExactly(s: string)
    ensures Atoi(s).Some? <==>
              var digits := if s != "" && (s[0] == '+' || s[0] == '-') then s[1..] else s;
              digits != "" && forall k :: 0 <= k < |digits| ==> '0' <= digits[k] <= '9'
  {
    DigitsOnly(if s != "" && (s[0] == '+' || s[0] == '-') then s[1..] else s);
    hide Digits;
  }

  /** A written number reads back as itself, and the sign in front of it counts. */
  lemma SignsCount(n: nat)
    ensures Atoi(Itoa(n)) == Some(n) && Atoi("+" + Itoa(n)) == Some(n)
    ensures Atoi("-" + Itoa(n)).Some? && Atoi("-" + Itoa(n)).value == 0 - n
  {
    ItoaDigits(n);
    hide Itoa, Digits;
    assert ("+" + Itoa(n))[1..] == Itoa(n) && ("-" + Itoa(n))[1..] == Itoa(n);
  }

  /** A cursor is read exactly when it is empty, which is the start, or a number of one of the mount's
      prefixes up to the first separator with the key after it. Anything else is refused. */
  lemma CursorReadExactly(value: string, prefixes: nat, at: At)
    ensures ParseCursor(value, prefixes) == Some(at) <==>
              || (value == "" && at == At(0, ""))
              || (exists i :: 0 <= i < |value| && value[i] == '|' && '|' !in value[..i] && value[i + 1..] == at.key
                              && Atoi(value[..i]) == Some(at.prefix) && at.prefix < prefixes)
    ensures value != "" && '|' !in value ==> ParseCursor(value, prefixes).None?
  {
    var c := Cut(value);
    if i :| 0 <= i < |value| && value[i] == '|' && '|' !in value[..i] {
      forall k | 0 <= k < i ensures value[k] != '|' { assert value[..i][k] == value[k]; }
      assert i == c;
    }
    if c < |value| { forall k | 0 <= k < c ensures value[..c][k] != '|' {} }
  }

  // ----- one request ---------------------------------------------------------------------

  function PageLimit(limit: int): Option<nat> {
    if limit == 0 then Some(DEFAULT_LIMIT) else if limit < 0 || limit > MAX_LIMIT then None else Some(limit)
  }

  /** No limit asks for two hundred, and a negative one or one over a thousand is refused. */
  lemma PageLimits(limit: int)
    ensures PageLimit(limit) == if limit == 0 then Some(200) else if 0 < limit <= 1000 then Some(limit) else None
  {}

  function Beyond(after: string): string -> bool {
    (k: string) => LexLess(after, k)
  }

  function First<T>(n: nat, s: seq<T>): seq<T> {
    if |s| <= n then s else s[..n]
  }

  ghost function KeysAfter(store: Store, index: nat, after: string): seq<string>
    requires index < |store|
  {
    Filter(Beyond(after), SortedKeys(store[index]))
  }

  function Present(gone: set<At>, index: nat): string -> bool {
    (k: string) => At(index, k) !in gone
  }

  function Tag(index: nat, keys: seq<string>): (r: seq<At>)
    ensures |r| == |keys| && forall i :: 0 <= i < |r| ==> r[i] == At(index, keys[i])
  {
    seq(|keys|, i requires 0 <= i < |keys| => At(index, keys[i]))
  }

  function Reached(last: At, index: nat, page: seq<string>): At {
    if page == [] then last else At(index, page[|page| - 1])
  }

  /** What reading one page yields: the entries that are still there, and the last position read.
      `gone` are the records that vanish after their page was listed. */
  ghost function Leg(store: Store, gone: set<At>, index: nat, after: string, room: nat, last: At): (r: (seq<At>, At))
    requires index < |store|
    ensures |r.0| <= room
  {
    var page := First(room, KeysAfter(store, index, after));
    (Tag(index, Filter(Present(gone, index), page)), Reached(last, index, page))
  }

  /** The walk of one request from a position on, with room for so many more entries: what it
      collects, and the last position it read. */
  ghost function PageFrom(store: Store, gone: set<At>, index: nat, after: string, room: nat, last: At): (seq<At>, At)
    decreases |store| - index
  {
    if index >= |store| || room == 0 then ([], last)
    else
      var leg := Leg(store, gone, index, after, room, last);
      var rest := PageFrom(store, gone, index + 1, "", room - |leg.0|, leg.1);
      (leg.0 + rest.0, rest.1)
  }

  ghost function Listing(store: Store, gone: set<At>, after: string, limit: int): Reply {
    match PageLimit(limit)
    case None => Refused
    case Some(n) =>
      match ParseCursor(after, |store|)
      case None => Refused
      case Some(at) =>
        var walk := PageFrom(store, gone, at.prefix, at.key, n, at);
        if |walk.0| == n then Page(walk.0, true, CursorText(walk.1)) else Page(walk.0, false, "")
  }

  method ListPage(keys: set<string>, after: string, n: nat) returns (page: seq<string>)
    ensures page == First(n, Filter(Beyond(after), SortedKeys(keys)))
  {
    var all := ListSorted(keys);
    page := First(n, Filter(Beyond(after), all));
  }

  /** Whether a walk meets a storage error before it ends. */
  ghost predicate Breaks(store: Store, gone: set<At>, index: nat, after: string, room: nat, last: At, faults: Faults)
    decreases |store| - index
  {
    && index < |store| && room > 0
    && (|| LegBreaks(store, index, after, room, faults)
        || var leg := Leg(store, gone, index, after, room, last);
           Breaks(store, gone, index + 1, "", room - |leg.0|, leg.1, faults))
  }

  ghost predicate LegBreaks(store: Store, index: nat, after: string, room: nat, faults: Faults)
    requires index < |store|
  {
    index in faults.listing
    || exists k :: k in First(room, KeysAfter(store, index, after)) && At(index, k) in faults.reading
  }

  /** One request, storage errors included: any of them refuses the whole page. */
  ghost function Answer(store: Store, gone: set<At>, after: string, limit: int, faults: Faults): Reply {
    match PageLimit(limit)
    case None => Refused
    case Some(n) =>
      match ParseCursor(after, |store|)
      case None => Refused
      case Some(at) =>
        if Breaks(store, gone, at.prefix, at.key, n, at, faults) then Unavailable
        else Listing(store, gone, after, limit)
  }

  /** What is published about exactly these entries. */
  ghost predicate Describes(info: map<At, Fields>, entries: seq<At>, values: At -> Option<Fields>) {
    && (forall e :: e in info <==> e in entries)
    && (forall e :: e in info ==> info[e] == Published(values(e)))
  }

  /** Reads the records of one page: the position moves on before a missing record is skipped. */
  method ReadPage(gone: set<At>, index: nat, page: seq<string>, from: At, values: At -> Option<Fields>, faults: Faults)
    returns (failed: bool, found: seq<At>, info: map<At, Fields>, last: At)
    ensures failed <==> exists k :: k in page && At(index, k) in faults.reading
    ensures !failed ==> found == Tag(index, Filter(Present(gone, index), page)) && last == Reached(from, index, page)
    ensures Describes(info, found, values)
  {
    failed, found, info, last := false, [], map[], from;
    for j := 0 to |page|
      invariant found == Tag(index, Filter(Present(gone, index), page[..j])) && last == Reached(from, index, page[..j])
      invariant !failed && Describes(info, found, values)
                && forall k :: k in page[..j] ==> At(index, k) !in faults.reading
    {
      FilterNext(Present(gone, index), page, j);
      assert page[..j + 1] == page[..j] + [page[j]];
      var e := At(index, page[j]);
      if e in faults.reading { return true, found, info, last; }
      last := e;
      if e in gone { continue; }
      found := found + [e];
      info := info[e := Published(values(e))];
    }
    assert page[..|page|] == page;
  }

  /** A request that has collected `entries` without an error and comes to the prefix `index`. */
  ghost predicate InWalk(store: Store, gone: set<At>, faults: Faults, at: At, n: nat, index: nat, entries: seq<At>,
                         last: At)
  {
    && |entries| <= n
    && var after := if index == at.prefix then at.key else "";
       var rest := PageFrom(store, gone, index, after, n - |entries|, last);
       && PageFrom(store, gone, at.prefix, at.key, n, at) == (entries + rest.0, rest.1)
       && (Breaks(store, gone, at.prefix, at.key, n, at, faults) <==>
             Breaks(store, gone, index, after, n - |entries|, last, faults))
  }

  lemma WalkGoesOn(store: Store, gone: set<At>, faults: Faults, at: At, n: nat, index: nat, entries: seq<At>, last: At,
                   found: seq<At>, reached: At)
    requires at.prefix <= index < |store| && |entries| < n
    requires InWalk(store, gone, faults, at, n, index, entries, last)
    requires var after := if index == at.prefix then at.key else "";
             && (found, reached) == Leg(store, gone, index, after, n - |entries|, last)
             && !LegBreaks(store, index, after, n - |entries|, faults)
    ensures |entries| + |found| <= n && InWalk(store, gone, faults, at, n, index + 1, entries + found, reached)
  {
    hide Leg, LegBreaks;
    var rest := PageFrom(store, gone, index + 1, "", n - |entries| - |found|, reached);
    assert entries + (found + rest.0) == (entries + found) + rest.0;
  }

  lemma WalkStarts(store: Store, gone: set<At>, faults: Faults, at: At, n: nat)
    ensures InWalk(store, gone, faults, at, n, at.prefix, [], at)
  {
    hide PageFrom, Breaks;
    var walk := PageFrom(store, gone, at.prefix, at.key, n, at);
    assert [] + walk.0 == walk.0;
  }

  lemma WalkStops(store: Store, gone: set<At>, faults: Faults, at: At, n: nat, index: nat, entries: seq<At>, last: At)
    requires InWalk(store, gone, faults, at, n, index, entries, last) && (index >= |store| || |entries| == n)
    ensures PageFrom(store, gone, at.prefix, at.key, n, at) == (entries, last)
    ensures !Breaks(store, gone, at.prefix, at.key, n, at, faults)
  {
    hide Leg, LegBreaks;
    assert entries + [] == entries;
  }

  lemma WalkBreaks(store: Store, gone: set<At>, faults: Faults, at: At, n: nat, index: nat, entries: seq<At>, last: At)
    requires InWalk(store, gone, faults, at, n, index, entries, last) && index < |store| && |entries| < n
    requires LegBreaks(store, index, if index == at.prefix then at.key else "", n - |entries|, faults)
    ensures Breaks(store, gone, at.prefix, at.key, n, at, faults)
  {
    hide Leg, LegBreaks, PageFrom;
  }

  method ReadPrefix(store: Store, gone: set<At>, index: nat, after: string, room: nat, from: At,
                    values: At -> Option<Fields>, faults: Faults)
    returns (failed: bool, found: seq<At>, info: map<At, Fields>, last: At)
    requires index < |store|
    ensures failed <==> LegBreaks(store, index, after, room, faults)
    ensures !failed ==> (found, last) == Leg(store, gone, index, after, room, from) && Describes(info, found, values)
  {
    if index in faults.listing { return true, [], map[], from; }
    var page := ListPage(store[index], after, room);
    failed, found, info, last := ReadPage(gone, index, page, from, values, faults);
  }

  /** The loop over the prefixes. */
  method Walk(store: Store, gone: set<At>, at: At, n: nat, values: At -> Option<Fields>, faults: Faults)
    returns (failed: bool, entries: seq<At>, info: map<At, Fields>, last: At)
    ensures failed <==> Breaks(store, gone, at.prefix, at.key, n, at, faults)
    ensures !failed ==> (entries, last) == PageFrom(store, gone, at.prefix, at.key, n, at)
    ensures !failed ==> Describes(info, entries, values)
  {
    hide PageFrom, InWalk, Leg, LegBreaks, Breaks;
    var index := at.prefix;
    failed, entries, info, last := false, [], map[], at;
    WalkStarts(store, gone, faults, at, n);
    while index < |store| && |entries| < n
      invariant at.prefix <= index && |entries| <= n && !failed
      invariant InWalk(store, gone, faults, at, n, index, entries, last) && Describes(info, entries, values)
      decreases |store| - index
    {
      var from := if index == at.prefix then at.key else "";
      var broke, found, more, reached := ReadPrefix(store, gone, index, from, n - |entries|, last, values, faults);
      if broke {
        WalkBreaks(store, gone, faults, at, n, index, entries, last);
        return true, entries, info, last;
      }
      WalkGoesOn(store, gone, faults, at, n, index, entries, last, found, reached);
      DescribesMore(info, entries, more, found, values);
      entries, info, last, index := entries + found, info + more, reached, index + 1;
    }
    WalkStops(store, gone, faults, at, n, index, entries, last);
  }

  lemma DescribesMore(info: map<At, Fields>, entries: seq<At>, more: map<At, Fields>, found: seq<At>,
                      values: At -> Option<Fields>)
    requires Describes(info, entries, values) && Describes(more, found, values)
    ensures Describes(info + more, entries + found, values)
  {}

  /** The request: the page, or its refusal, and what is published about each entry of it. `values`
      are the records as they are read. */
  method List(store: Store, gone: set<At>, after: string, limit: int, values: At -> Option<Fields>, faults: Faults)
    returns (reply: Reply, info: map<At, Fields>)
    ensures reply == Answer(store, gone, after, limit, faults)
    ensures reply.Page? ==> Describes(info, reply.entries, values)
    ensures reply.Page? ==> forall e :: e in info <==> e in reply.entries
    ensures forall e :: e in info ==>
              match values(e)
              case None => info[e] == map[]
              case Some(fields) =>
                && info[e].Keys == fields.Keys * PUBLISHED
                && forall k :: k in fields && k in PUBLISHED ==> info[e][k] == fields[k]
  {
    info := map[];
    var room := PageLimit(limit);
    if room.None? { return Refused, map[]; }
    var cursor := ParseCursor(after, |store|);
    if cursor.None? { return Refused, map[]; }
    var n, at := room.value, cursor.value;
    var failed, entries, published, last := Walk(store, gone, at, n, values, faults);
    if failed { return Unavailable, map[]; }
    return if |entries| == n then Page(entries, true, CursorText(last)) else Page(entries, false, ""), published;
  }

  /** Without storage errors a request answers with the page. */
  lemma {:induction false} NoFaultNoBreak(store: Store, gone: set<At>, index: nat, after: string, room: nat, last: At)
    ensures !Breaks(store, gone, index, after, room, last, Faults({}, {}))
    decreases |store| - index
  {
    hide Leg;
    if index < |store| && room > 0 {
      var leg := Leg(store, gone, index, after, room, last);
      NoFaultNoBreak(store, gone, index + 1, "", room - |leg.0|, leg.1);
    }
  }

  lemma {:induction false} WalkMeetsNoError(store: Store, gone: set<At>, index: nat, after: string, room: nat, last: At,
                                            faults: Faults)
    requires !Breaks(store, gone, index, after, room, last, faults)
    ensures forall e :: e in PageFrom(store, gone, index, after, room, last).0 ==>
              e !in faults.reading && e.prefix !in faults.listing
    ensures index < |store| && room > 0 ==> index !in faults.listing
    decreases |store| - index
  {
    if index < |store| && room > 0 {
      var page := First(room, KeysAfter(store, index, after));
      var leg := Leg(store, gone, index, after, room, last);
      WalkMeetsNoError(store, gone, index + 1, "", room - |leg.0|, leg.1, faults);
      FilterMembers(Present(gone, index), page);
      hide KeysAfter, First, Filter, PageFrom, Breaks;
      forall e | e in leg.0 ensures e !in faults.reading && e.prefix !in faults.listing {
        var k :| 0 <= k < |leg.0| && leg.0[k] == e;
        assert e.prefix == index && e.key in Filter(Present(gone, index), page);
      }
    }
  }

  /** No page is served over a storage error: what is on it could be read and its prefixes listed,
      and a request that cannot list where its cursor points is refused. */
  lemma ErrorsRefusePages(store: Store, gone: set<At>, after: string, limit: int, faults: Faults)
    ensures var reply := Answer(store, gone, after, limit, faults);
            && (reply.Page? ==> forall e :: e in reply.entries ==> e !in faults.reading && e.prefix !in faults.listing)
            && (reply.Page? ==> var at := ParseCursor(after, |store|).value;
                                at.prefix < |store| ==> at.prefix !in faults.listing)
            && (reply.Refused? <==> PageLimit(limit).None? || ParseCursor(after, |store|).None?)
  {
    if PageLimit(limit).Some? && ParseCursor(after, |store|).Some? {
      var n, at := PageLimit(limit).value, ParseCursor(after, |store|).value;
      hide PageFrom, Breaks, ParseCursor;
      if !Breaks(store, gone, at.prefix, at.key, n, at, faults) {
        WalkMeetsNoError(store, gone, at.prefix, at.key, n, at, faults);
      }
    }
  }

  // ----- what one request returns --------------------------------------------------------

  predicate Before(a: At, b: At) {
    a.prefix < b.prefix || (a.prefix == b.prefix && LexLess(a.key, b.key))
  }

  predicate Holds(store: Store, e: At) {
    e.prefix < |store| && e.key in store[e.prefix]
  }

  /** Still there when its record is read. */
  predicate Stays(store: Store, gone: set<At>, e: At) {
    Holds(store, e) && e !in gone
  }

  ghost predicate InOrder(s: seq<At>) {
    forall i, j :: 0 <= i < j < |s| ==> Before(s[i], s[j])
  }

  /** A page filled the room left, a record in it vanished, and a record after it did not. */
  ghost predicate OverrunHere(store: Store, gone: set<At>, index: nat, after: string, room: nat)
    requires index < |store|
  {
    var keys := KeysAfter(store, index, after);
    var page := First(room, keys);
    (exists k :: k in page && At(index, k) in gone) && (exists k :: k in keys[|page|..] && At(index, k) !in gone)
  }

  /** Somewhere in a walk that happens, and the walk goes on to the next prefix all the same. */
  ghost predicate Overrun(store: Store, gone: set<At>, index: nat, after: string, room: nat, last: At)
    decreases |store| - index
  {
    && index < |store| && room > 0
    && (|| OverrunHere(store, gone, index, after, room)
        || var leg := Leg(store, gone, index, after, room, last);
           Overrun(store, gone, index + 1, "", room - |leg.0|, leg.1))
  }

  lemma KeysAfterFacts(store: Store, index: nat, after: string)
    requires index < |store|
    ensures Ascending(KeysAfter(store, index, after))
    ensures forall k :: k in KeysAfter(store, index, after) <==> k in store[index] && LexLess(after, k)
  {
    FilterMembers(Beyond(after), SortedKeys(store[index]));
    FilterAscending(Beyond(after), SortedKeys(store[index]));
  }

  /** The page of one prefix: what it keeps, and what lies beyond it. */
  lemma PageFacts(gone: set<At>, index: nat, keys: seq<string>, room: nat)
    requires Ascending(keys)
    ensures var page := First(room, keys);
            var kept := Filter(Present(gone, index), page);
            && Ascending(kept) && |kept| <= |page| <= room
            && (forall k :: k in kept <==> k in page && At(index, k) !in gone)
            && (forall k :: k in keys <==> k in page || k in keys[|page|..])
            && (|kept| < |page| <==> exists k :: k in page && At(index, k) in gone)
            && (keys[|page|..] != [] ==> |page| == room)
  {
    var page := First(room, keys);
    FilterMembers(Present(gone, index), page);
    FilterAscending(Present(gone, index), page);
    assert keys == page + keys[|page|..];
    KeptAll(gone, index, page);
  }

  lemma {:induction false} KeptAll(gone: set<At>, index: nat, page: seq<string>)
    ensures |Filter(Present(gone, index), page)| < |page| <==> exists k :: k in page && At(index, k) in gone
  {
    if page != [] {
      KeptAll(gone, index, page[1..]);
      assert page == [page[0]] + page[1..];
    }
  }

  lemma PageEnds(keys: seq<string>, room: nat)
    requires Ascending(keys)
    ensures var page := First(room, keys);
            page != [] ==>
              && (forall k :: k in page ==> LexLe(k, page[|page| - 1]))
              && (forall k :: k in keys[|page|..] ==> LexLess(page[|page| - 1], k))
  {
    LexIsTotalOrder();
    var page := First(room, keys);
    if page != [] {
      forall k | k in page ensures LexLe(k, page[|page| - 1]) {
        var i :| 0 <= i < |page| && page[i] == k;
      }
    }
  }

  /** What `got` and `end` satisfy when they are what a walk from `start` collects and where it
      ends: in order, still there, after the start, and not after the end. */
  ghost predicate Walked(store: Store, gone: set<At>, start: At, room: nat, last: At, got: seq<At>, end: At) {
    && |got| <= room && InOrder(got)
    && (forall e :: e in got ==> Stays(store, gone, e) && Before(start, e) && !Before(end, e))
    && (end == last || (end.prefix < |store| && Before(start, end)))
  }

  ghost predicate Covered(got: seq<At>, room: nat, end: At, e: At) {
    e in got || (|got| == room && Before(end, e))
  }

  lemma LegWalks(store: Store, gone: set<At>, index: nat, after: string, room: nat, last: At)
    requires index < |store|
    ensures var leg := Leg(store, gone, index, after, room, last);
            && Walked(store, gone, At(index, after), room, last, leg.0, leg.1)
            && (forall e :: e in leg.0 ==> e.prefix == index && leg.1.prefix == index)
            && (leg.1 == last || leg.1.prefix == index)
  {
    hide LexLe, Filter, KeysAfter;
    var keys := KeysAfter(store, index, after);
    KeysAfterFacts(store, index, after);
    PageFacts(gone, index, keys, room);
    PageEnds(keys, room);
    var page := First(room, keys);
    var leg := Leg(store, gone, index, after, room, last);
    if page != [] { assert page[|page| - 1] in page; }
    forall e | e in leg.0 ensures Stays(store, gone, e) && e.prefix == index && LexLess(after, e.key) && e.key in page {
      assert e.key in Filter(Present(gone, index), page);
    }
    forall e | e in leg.0 ensures !Before(leg.1, e) {
      if LexLess(page[|page| - 1], e.key) { LexAntisymmetric(page[|page| - 1], e.key); }
    }
  }

  lemma LegCovers(store: Store, gone: set<At>, index: nat, after: string, room: nat, last: At, e: At)
    requires index < |store| && room > 0 && !OverrunHere(store, gone, index, after, room)
    requires Stays(store, gone, e) && e.prefix == index && LexLess(after, e.key)
    ensures var leg := Leg(store, gone, index, after, room, last);
            Covered(leg.0, room, leg.1, e)
  {
    var keys := KeysAfter(store, index, after);
    KeysAfterFacts(store, index, after);
    PageFacts(gone, index, keys, room);
    PageEnds(keys, room);
    var page := First(room, keys);
    var kept := Filter(Present(gone, index), page);
    if e.key in page {
      TagMember(index, kept, e.key);
    } else {
      assert e.key in keys[|page|..] && At(index, e.key) == e;
      assert |kept| == |page| == room;
      assert Before(Reached(last, index, page), e);
    }
  }

  lemma TagMember(index: nat, keys: seq<string>, k: string)
    requires k in keys
    ensures At(index, k) in Tag(index, keys)
  {
    var i :| 0 <= i < |keys| && keys[i] == k;
    assert Tag(index, keys)[i] == At(index, k);
  }

  lemma LegLoses(store: Store, gone: set<At>, index: nat, after: string, room: nat, last: At) returns (e: At)
    requires index < |store| && OverrunHere(store, gone, index, after, room)
    ensures Stays(store, gone, e) && e.prefix == index && LexLess(after, e.key)
    ensures var leg := Leg(store, gone, index, after, room, last);
            e !in leg.0 && |leg.0| < room
  {
    var keys := KeysAfter(store, index, after);
    KeysAfterFacts(store, index, after);
    PageFacts(gone, index, keys, room);
    var page := First(room, keys);
    var k :| k in keys[|page|..] && At(index, k) !in gone;
    e := At(index, k);
    KeyOnce(keys, |page|, k);
    assert k !in Filter(Present(gone, index), page);
  }

  lemma KeyOnce(keys: seq<string>, n: nat, k: string)
    requires Ascending(keys) && n <= |keys| && k in keys[n..]
    ensures k !in keys[..n]
  {
    var i :| 0 <= i < |keys[n..]| && keys[n..][i] == k;
    assert keys[n + i] == k;
  }

  lemma WalksJoin(store: Store, gone: set<At>, index: nat, after: string, room: nat, last: At,
                  kept: seq<At>, reached: At, got: seq<At>, end: At)
    requires Walked(store, gone, At(index, after), room, last, kept, reached)
    requires forall e :: e in kept ==> e.prefix == index && reached.prefix == index
    requires |kept| <= room && Walked(store, gone, At(index + 1, ""), room - |kept|, reached, got, end)
    ensures Walked(store, gone, At(index, after), room, last, kept + got, end)
  {
    forall e | e in kept + got ensures Stays(store, gone, e) && Before(At(index, after), e) && !Before(end, e) {
      if e in kept { assert end == reached || end.prefix > index; }
    }
    forall i, j | 0 <= i < |kept| && 0 <= j < |got| ensures Before(kept[i], got[j]) {
      assert kept[i] in kept && got[j] in got;
    }
  }

  lemma {:induction false} PageWalks(store: Store, gone: set<At>, index: nat, after: string, room: nat, last: At)
    ensures var walk := PageFrom(store, gone, index, after, room, last);
            Walked(store, gone, At(index, after), room, last, walk.0, walk.1)
    decreases |store| - index
  {
    hide Leg;
    if index < |store| && room > 0 {
      var leg := Leg(store, gone, index, after, room, last);
      var rest := PageFrom(store, gone, index + 1, "", room - |leg.0|, leg.1);
      LegWalks(store, gone, index, after, room, last);
      PageWalks(store, gone, index + 1, "", room - |leg.0|, leg.1);
      WalksJoin(store, gone, index, after, room, last, leg.0, leg.1, rest.0, rest.1);
    }
  }

  lemma NothingBelowEmpty(k: string)
    requires k != ""
    ensures LexLess("", k)
  {}

  lemma CoversJoin(kept: seq<At>, reached: At, got: seq<At>, end: At, room: nat, e: At)
    requires |kept| <= room && |got| <= room - |kept|
    requires Covered(got, room - |kept|, end, e)
          || (Covered(kept, room, reached, e) && (|kept| == room ==> got == [] && end == reached))
    ensures Covered(kept + got, room, end, e)
  {}

  /** Every record that stays, after the start of a walk that does not overrun, is collected or
      lies after the position a full walk ends at. */
  lemma {:induction false} PageCovers(store: Store, gone: set<At>, index: nat, after: string,
                                      room: nat, last: At, e: At)
    requires last == At(index, after) || last.prefix < index
    requires !Overrun(store, gone, index, after, room, last)
    requires Stays(store, gone, e) && Before(At(index, after), e) && e.key != ""
    ensures var walk := PageFrom(store, gone, index, after, room, last);
            Covered(walk.0, room, walk.1, e)
    decreases |store| - index
  {
    hide Leg, OverrunHere, LexLe;
    if index < |store| && room > 0 {
      var leg := Leg(store, gone, index, after, room, last);
      var rest := PageFrom(store, gone, index + 1, "", room - |leg.0|, leg.1);
      LegWalks(store, gone, index, after, room, last);
      PageWalks(store, gone, index + 1, "", room - |leg.0|, leg.1);
      if e.prefix > index {
        NothingBelowEmpty(e.key);
        PageCovers(store, gone, index + 1, "", room - |leg.0|, leg.1, e);
      } else {
        LegCovers(store, gone, index, after, room, last, e);
      }
      CoversJoin(leg.0, leg.1, rest.0, rest.1, room, e);
    }
  }

  /** What one page loses, the walk loses: it fills up only by going on to a later prefix. */
  lemma LosesJoin(store: Store, gone: set<At>, kept: seq<At>, reached: At, got: seq<At>, end: At, room: nat, e: At)
    requires |kept| < room && e !in kept
    requires Walked(store, gone, At(e.prefix + 1, ""), room - |kept|, reached, got, end)
    ensures !Covered(kept + got, room, end, e)
  {
    if got != [] {
      assert Before(At(e.prefix + 1, ""), got[0]) && !Before(end, got[0]);
    }
    forall x | x in got ensures x != e {}
  }

  /** A walk that overruns loses a record that stays. */
  lemma {:induction false} PageLoses(store: Store, gone: set<At>, index: nat, after: string, room: nat, last: At)
    returns (e: At)
    requires Overrun(store, gone, index, after, room, last)
    ensures Stays(store, gone, e) && Before(At(index, after), e)
    ensures var walk := PageFrom(store, gone, index, after, room, last);
            !Covered(walk.0, room, walk.1, e)
    decreases |store| - index
  {
    hide Leg;
    var leg := Leg(store, gone, index, after, room, last);
    var rest := PageFrom(store, gone, index + 1, "", room - |leg.0|, leg.1);
    if OverrunHere(store, gone, index, after, room) {
      e := LegLoses(store, gone, index, after, room, last);
      PageWalks(store, gone, index + 1, "", room - |leg.0|, leg.1);
      LosesJoin(store, gone, leg.0, leg.1, rest.0, rest.1, room, e);
    } else {
      e := PageLoses(store, gone, index + 1, "", room - |leg.0|, leg.1);
      LegWalks(store, gone, index, after, room, last);
      LosesLater(leg.0, index, rest.0, rest.1, room, e);
    }
  }

  lemma LosesLater(kept: seq<At>, index: nat, got: seq<At>, end: At, room: nat, e: At)
    requires |kept| <= room && e.prefix > index && forall x :: x in kept ==> x.prefix == index
    requires !Covered(got, room - |kept|, end, e)
    ensures !Covered(kept + got, room, end, e)
  {}

  /** A record that stays is returned by a request or is left for the ones that follow. */
  ghost predicate Served(reply: Reply, e: At, prefixes: nat) {
    reply.Page? && (e in reply.entries || (reply.more && var at := ParseCursor(reply.nextAfter, prefixes);
                                                         at.Some? && Before(at.value, e)))
  }

  /** One request serves every record that stays exactly when its walk does not overrun. */
  lemma PageIsCompleteExactly(store: Store, gone: set<At>, after: string, limit: int)
    requires WellFormed(store) && PageLimit(limit).Some? && ParseCursor(after, |store|).Some?
    ensures var at := ParseCursor(after, |store|).value;
            (forall e :: Stays(store, gone, e) && Before(at, e)
                    ==> Served(Listing(store, gone, after, limit), e, |store|))
            <==> !Overrun(store, gone, at.prefix, at.key, PageLimit(limit).value, at)
  {
    var at, n := ParseCursor(after, |store|).value, PageLimit(limit).value;
    ListingCovers(store, gone, after, limit);
    if Overrun(store, gone, at.prefix, at.key, n, at) {
      var e := PageLoses(store, gone, at.prefix, at.key, n, at);
      assert !Served(Listing(store, gone, after, limit), e, |store|);
    } else {
      forall e | Stays(store, gone, e) && Before(at, e) ensures Served(Listing(store, gone, after, limit), e, |store|) {
        PageCovers(store, gone, at.prefix, at.key, n, at, e);
      }
    }
  }

  /** The response of a request in terms of its walk: following its cursor resumes where the walk
      ended. */
  lemma ListingCovers(store: Store, gone: set<At>, after: string, limit: int)
    requires PageLimit(limit).Some? && ParseCursor(after, |store|).Some?
    ensures var at, n := ParseCursor(after, |store|).value, PageLimit(limit).value;
            var walk := PageFrom(store, gone, at.prefix, at.key, n, at);
            var reply := Listing(store, gone, after, limit);
            && Walked(store, gone, at, n, at, walk.0, walk.1)
            && reply.Page? && reply.entries == walk.0 && (reply.more <==> |walk.0| == n)
            && (reply.more ==> ParseCursor(reply.nextAfter, |store|) == Some(walk.1))
            && (forall e :: Served(reply, e, |store|) <==> Covered(walk.0, n, walk.1, e))
  {
    hide PageFrom;
    var at, n := ParseCursor(after, |store|).value, PageLimit(limit).value;
    var walk := PageFrom(store, gone, at.prefix, at.key, n, at);
    PageWalks(store, gone, at.prefix, at.key, n, at);
    CursorRoundTrip(walk.1, |store|);
    if walk.0 != [] { assert walk.0[0] in walk.0; }
  }
}
