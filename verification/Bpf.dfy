/** BPF listeners summed per process and interface, and once more per direction. */
module Bpf {
  import opened Order

  datatype Entry = Entry(
    process: string, iface: string, direction: string,
    received: real, dropped: real, filtered: real, store: real, hold: real)

  /** What is added up: the listeners themselves, their packets and their buffers. */
  datatype Figure = Listeners | Received | Dropped | Matched | StoreBuffer | HoldBuffer

  function Amount(e: Entry, f: Figure): real {
    match f
    case Listeners => 1.0
    case Received => e.received
    case Dropped => e.dropped
    case Matched => e.filtered
    case StoreBuffer => e.store
    case HoldBuffer => e.hold
  }

  datatype Sums = Sums(listeners: real, received: real, dropped: real, matched: real, store: real, hold: real) {
    function Get(f: Figure): real {
      match f
      case Listeners => listeners
      case Received => received
      case Dropped => dropped
      case Matched => matched
      case StoreBuffer => store
      case HoldBuffer => hold
    }

    /** The sums with one entry more. */
    function Plus(e: Entry): (r: Sums)
      ensures forall f :: r.Get(f) == Get(f) + Amount(e, f)
    {
      Sums(listeners + 1.0, received + e.received, dropped + e.dropped, matched + e.filtered, store + e.store, hold + e.hold)
    }
  }

  /** The sums of a single entry. */
  function First(e: Entry): (r: Sums)
    ensures forall f :: r.Get(f) == Amount(e, f)
  {
    Sums(1.0, e.received, e.dropped, e.filtered, e.store, e.hold)
  }

  /** The parts of a key: process, interface and, in the breakdown, direction. */
  type Key = seq<string>

  datatype Row = Row(key: Key, sums: Sums)

  /** An absent direction still has a row. */
  function Direction(v: string): string { if v == "" then "unknown" else v }

  function PairKey(e: Entry): Key { [e.process, e.iface] }

  function DirectionKey(e: Entry): Key { [e.process, e.iface, Direction(e.direction)] }

  // ----- Sums over entries and over rows -----

  function SumFor(entries: seq<Entry>, keyOf: Entry -> Key, key: Key, f: Figure): real {
    if entries == [] then 0.0 else
    var e := entries[|entries| - 1];
    SumFor(entries[..|entries| - 1], keyOf, key, f) + if keyOf(e) == key then Amount(e, f) else 0.0
  }

  function SumWhere(entries: seq<Entry>, keyOf: Entry -> Key, chosen: Key -> bool, f: Figure): real {
    if entries == [] then 0.0 else
    var e := entries[|entries| - 1];
    SumWhere(entries[..|entries| - 1], keyOf, chosen, f) + if chosen(keyOf(e)) then Amount(e, f) else 0.0
  }

  function RowsWhere(rows: seq<Row>, chosen: Key -> bool, f: Figure): real {
    if rows == [] then 0.0 else
    var row := rows[|rows| - 1];
    RowsWhere(rows[..|rows| - 1], chosen, f) + if chosen(row.key) then row.sums.Get(f) else 0.0
  }

  /** Each figure of the sums is that of the entries with this key. */
  ghost predicate SumsFor(sums: Sums, entries: seq<Entry>, keyOf: Entry -> Key, key: Key) {
    forall f :: sums.Get(f) == SumFor(entries, keyOf, key, f)
  }

  /** Rows in strictly ascending order of their keys, one for each key there is, each with
      the sums of its entries. */
  ghost predicate Tabulates(rows: seq<Row>, entries: seq<Entry>, keyOf: Entry -> Key) {
    && (forall i, j :: 0 <= i < j < |rows| ==> KeyLess(rows[i].key, rows[j].key))
    && (forall i :: 0 <= i < |rows| ==> SumsFor(rows[i].sums, entries, keyOf, rows[i].key))
    && RowKeys(rows) == EntryKeys(entries, keyOf)
  }

  ghost function RowKeys(rows: seq<Row>): set<Key> { set i | 0 <= i < |rows| :: rows[i].key }

  ghost function EntryKeys(entries: seq<Entry>, keyOf: Entry -> Key): set<Key> {
    set j | 0 <= j < |entries| :: keyOf(entries[j])
  }

  // ----- Regrouping -----

  /** What a list of keys is charged, over the chosen ones. */
  function KeysWhere(keys: seq<Key>, entries: seq<Entry>, keyOf: Entry -> Key, chosen: Key -> bool, f: Figure): real {
    if keys == [] then 0.0 else
    var key := keys[|keys| - 1];
    KeysWhere(keys[..|keys| - 1], entries, keyOf, chosen, f) + if chosen(key) then SumFor(entries, keyOf, key, f) else 0.0
  }

  lemma {:induction false} NoEntries(keys: seq<Key>, keyOf: Entry -> Key, chosen: Key -> bool, f: Figure)
    ensures KeysWhere(keys, [], keyOf, chosen, f) == 0.0
  {
    if keys == [] {
    } else {
      NoEntries(keys[..|keys| - 1], keyOf, chosen, f);
    }
  }

  /** One more entry counts once if its key is among the keys, and not at all if it is
      not. */
  lemma {:induction false} EntryCountsOnce(keys: seq<Key>, entries: seq<Entry>, keyOf: Entry -> Key, chosen: Key -> bool, f: Figure)
    requires entries != [] && forall i, j :: 0 <= i < j < |keys| ==> keys[i] != keys[j]
    ensures var before, e := entries[..|entries| - 1], entries[|entries| - 1];
      KeysWhere(keys, entries, keyOf, chosen, f)
      == KeysWhere(keys, before, keyOf, chosen, f) + if keyOf(e) in keys && chosen(keyOf(e)) then Amount(e, f) else 0.0
  {
    if keys == [] {
    } else {
      var init, key := keys[..|keys| - 1], keys[|keys| - 1];
      var e := entries[|entries| - 1];
      EntryCountsOnce(init, entries, keyOf, chosen, f);
      assert key !in init;
      assert keyOf(e) in keys <==> keyOf(e) in init || keyOf(e) == key;
    }
  }

  lemma {:induction false} KeysCoverEntries(keys: seq<Key>, entries: seq<Entry>, keyOf: Entry -> Key, chosen: Key -> bool, f: Figure)
    requires forall i, j :: 0 <= i < j < |keys| ==> keys[i] != keys[j]
    requires forall j :: 0 <= j < |entries| ==> keyOf(entries[j]) in keys
    ensures KeysWhere(keys, entries, keyOf, chosen, f) == SumWhere(entries, keyOf, chosen, f)
    decreases |entries|
  {
    if entries == [] {
      NoEntries(keys, keyOf, chosen, f);
    } else {
      KeysCoverEntries(keys, entries[..|entries| - 1], keyOf, chosen, f);
      EntryCountsOnce(keys, entries, keyOf, chosen, f);
      assert keyOf(entries[|entries| - 1]) in keys;
    }
  }

  function KeysOf(rows: seq<Row>): (keys: seq<Key>)
    ensures |keys| == |rows| && forall i :: 0 <= i < |rows| ==> keys[i] == rows[i].key
  {
    seq(|rows|, i requires 0 <= i < |rows| => rows[i].key)
  }

  lemma {:induction false} RowsAreKeys(rows: seq<Row>, entries: seq<Entry>, keyOf: Entry -> Key, chosen: Key -> bool, f: Figure)
    requires forall i :: 0 <= i < |rows| ==> SumsFor(rows[i].sums, entries, keyOf, rows[i].key)
    ensures RowsWhere(rows, chosen, f) == KeysWhere(KeysOf(rows), entries, keyOf, chosen, f)
  {
    if rows == [] {
    } else {
      var n := |rows| - 1;
      RowsAreKeys(rows[..n], entries, keyOf, chosen, f);
      assert KeysOf(rows)[..n] == KeysOf(rows[..n]);
      assert SumsFor(rows[n].sums, entries, keyOf, rows[n].key);
    }
  }

  /** Any choice of rows carries exactly what its entries do. */
  lemma RowsCarryEntries(rows: seq<Row>, entries: seq<Entry>, keyOf: Entry -> Key, chosen: Key -> bool, f: Figure)
    requires Tabulates(rows, entries, keyOf)
    ensures RowsWhere(rows, chosen, f) == SumWhere(entries, keyOf, chosen, f)
  {
    TableKeys(rows, entries, keyOf);
    RowsAreKeys(rows, entries, keyOf, chosen, f);
    KeysCoverEntries(KeysOf(rows), entries, keyOf, chosen, f);
  }

  lemma TableKeys(rows: seq<Row>, entries: seq<Entry>, keyOf: Entry -> Key)
    requires Tabulates(rows, entries, keyOf)
    ensures forall i, j :: 0 <= i < j < |rows| ==> KeysOf(rows)[i] != KeysOf(rows)[j]
    ensures forall j :: 0 <= j < |entries| ==> keyOf(entries[j]) in KeysOf(rows)
  {
    forall i, j | 0 <= i < j < |rows| ensures rows[i].key != rows[j].key {
      KeyLessIsStrict(rows[i].key, rows[j].key);
    }
    forall j | 0 <= j < |entries| ensures keyOf(entries[j]) in KeysOf(rows) {
      assert keyOf(entries[j]) in EntryKeys(entries, keyOf);
      var i :| 0 <= i < |rows| && rows[i].key == keyOf(entries[j]);
      assert KeysOf(rows)[i] == rows[i].key;
    }
  }

  // ----- The two aggregations agree -----

  /** The rows of the breakdown that belong to a process and interface. */
  function Under(pair: Key): Key -> bool { key => |key| == 3 && key[..2] == pair }

  lemma {:induction false} DirectionsOfPair(entries: seq<Entry>, pair: Key, f: Figure)
    ensures SumWhere(entries, DirectionKey, Under(pair), f) == SumFor(entries, PairKey, pair, f)
  {
    if entries == [] {
    } else {
      var e := entries[|entries| - 1];
      DirectionsOfPair(entries[..|entries| - 1], pair, f);
      assert DirectionKey(e)[..2] == PairKey(e);
    }
  }

  lemma {:induction false} EntriesCounted(entries: seq<Entry>, chosen: Key -> bool)
    requires forall key :: chosen(key)
    ensures SumWhere(entries, DirectionKey, chosen, Listeners) == |entries| as real
  {
    if entries == [] {
    } else {
      EntriesCounted(entries[..|entries| - 1], chosen);
    }
  }

  /** Folding the rows over direction gives the row of the coarser table in every figure. */
  ghost predicate FoldsTo(byDirection: seq<Row>, row: Row) {
    forall f :: RowsWhere(byDirection, Under(row.key), f) == row.sums.Get(f)
  }

  /** Folding the breakdown over direction gives each row of the coarser table, in every
      figure, and its listener counts add up to the number of raw entries. */
  lemma BreakdownAgrees(entries: seq<Entry>, listeners: seq<Row>, byDirection: seq<Row>)
    requires Tabulates(listeners, entries, PairKey) && Tabulates(byDirection, entries, DirectionKey)
    ensures forall i :: 0 <= i < |listeners| ==> FoldsTo(byDirection, listeners[i])
    ensures RowsWhere(byDirection, key => true, Listeners) == |entries| as real
  {
    forall i, f | 0 <= i < |listeners| ensures RowsWhere(byDirection, Under(listeners[i].key), f) == listeners[i].sums.Get(f) {
      RowsCarryEntries(byDirection, entries, DirectionKey, Under(listeners[i].key), f);
      DirectionsOfPair(entries, listeners[i].key, f);
      assert SumsFor(listeners[i].sums, entries, PairKey, listeners[i].key);
    }
    var all: Key -> bool := key => true;
    RowsCarryEntries(byDirection, entries, DirectionKey, all, Listeners);
    EntriesCounted(entries, all);
  }

  // ----- Aggregating -----

  /** Sums for each key of the entries. */
  ghost predicate Summed(sums: map<Key, Sums>, entries: seq<Entry>, keyOf: Entry -> Key) {
    && sums.Keys == EntryKeys(entries, keyOf)
    && (forall key :: key in sums ==> SumsFor(sums[key], entries, keyOf, key))
  }

  /** The keys of the map, each once. */
  ghost predicate Listed(order: seq<Key>, keys: set<Key>) {
    && (forall key :: key in order <==> key in keys)
    && (forall i, j :: 0 <= i < j < |order| ==> order[i] != order[j])
  }

  lemma KeysMore(entries: seq<Entry>, keyOf: Entry -> Key)
    requires entries != []
    ensures EntryKeys(entries, keyOf) == EntryKeys(entries[..|entries| - 1], keyOf) + {keyOf(entries[|entries| - 1])}
  {
    var n := |entries| - 1;
    var before := entries[..n];
    forall j | 0 <= j < n ensures keyOf(before[j]) in EntryKeys(entries, keyOf) {
      assert entries[j] == before[j];
    }
    forall key | key in EntryKeys(entries, keyOf) ensures key in EntryKeys(before, keyOf) + {keyOf(entries[n])} {
      var j :| 0 <= j < |entries| && keyOf(entries[j]) == key;
      if j < n {
        assert before[j] == entries[j];
      }
    }
  }

  lemma {:induction false} SumForAbsent(entries: seq<Entry>, keyOf: Entry -> Key, key: Key, f: Figure)
    requires forall j :: 0 <= j < |entries| ==> keyOf(entries[j]) != key
    ensures SumFor(entries, keyOf, key, f) == 0.0
  {
    if entries == [] {
    } else {
      SumForAbsent(entries[..|entries| - 1], keyOf, key, f);
    }
  }

  lemma AbsentKey(entries: seq<Entry>, keyOf: Entry -> Key, key: Key)
    requires key !in EntryKeys(entries, keyOf)
    ensures forall j :: 0 <= j < |entries| ==> keyOf(entries[j]) != key
  {
    forall j | 0 <= j < |entries| ensures keyOf(entries[j]) != key {
      assert keyOf(entries[j]) in EntryKeys(entries, keyOf);
    }
  }

  function Raised(sums: map<Key, Sums>, e: Entry, key: Key): map<Key, Sums> {
    sums[key := if key in sums then sums[key].Plus(e) else First(e)]
  }

  /** One more entry in the sums of its key. */
  lemma RaisedAt(sums: map<Key, Sums>, entries: seq<Entry>, keyOf: Entry -> Key, key: Key)
    requires entries != [] && Summed(sums, entries[..|entries| - 1], keyOf)
    requires key in Raised(sums, entries[|entries| - 1], keyOf(entries[|entries| - 1]))
    ensures SumsFor(Raised(sums, entries[|entries| - 1], keyOf(entries[|entries| - 1]))[key], entries, keyOf, key)
  {
    var before, e := entries[..|entries| - 1], entries[|entries| - 1];
    if key in sums {
      assert SumsFor(sums[key], before, keyOf, key);
    } else {
      AbsentKey(before, keyOf, key);
      var r := First(e);
      assert keyOf(e) == key && Raised(sums, e, key)[key] == r;
      forall f ensures r.Get(f) == SumFor(entries, keyOf, key, f) {
        SumForAbsent(before, keyOf, key, f);
        assert r.Get(f) == Amount(e, f);
      }
    }
  }

  lemma SummedMore(sums: map<Key, Sums>, entries: seq<Entry>, keyOf: Entry -> Key)
    requires entries != [] && Summed(sums, entries[..|entries| - 1], keyOf)
    ensures Summed(Raised(sums, entries[|entries| - 1], keyOf(entries[|entries| - 1])), entries, keyOf)
  {
    var more := Raised(sums, entries[|entries| - 1], keyOf(entries[|entries| - 1]));
    KeysMore(entries, keyOf);
    forall key | key in more ensures SumsFor(more[key], entries, keyOf, key) {
      RaisedAt(sums, entries, keyOf, key);
    }
  }

  lemma ListedMore(order: seq<Key>, keys: set<Key>, key: Key)
    requires Listed(order, keys) && key !in keys
    ensures Listed(order + [key], keys + {key})
  {
  }

  /** Adds the last entry to what was collected. */
  method Collect(sums: map<Key, Sums>, order: seq<Key>, e: Entry, key: Key, ghost entries: seq<Entry>, ghost keyOf: Entry -> Key)
    returns (sums': map<Key, Sums>, order': seq<Key>)
    requires entries != [] && e == entries[|entries| - 1] && key == keyOf(e)
    requires Summed(sums, entries[..|entries| - 1], keyOf) && Listed(order, sums.Keys)
    ensures Summed(sums', entries, keyOf) && Listed(order', sums'.Keys)
  {
    SummedMore(sums, entries, keyOf);
    if key in sums {
      sums', order' := sums[key := sums[key].Plus(e)], order;
      assert sums'.Keys == sums.Keys;
    } else {
      ListedMore(order, sums.Keys, key);
      sums', order' := sums[key := First(e)], order + [key];
      assert sums'.Keys == sums.Keys + {key};
    }
  }

  /** The aggregation by a key: sums by key and the keys in order of appearance, sorted at
      the end. */
  method Aggregate(entries: seq<Entry>, keyOf: Entry -> Key) returns (rows: seq<Row>)
    ensures Tabulates(rows, entries, keyOf)
  {
    var sums: map<Key, Sums> := map[];
    var order: seq<Key> := [];
    var n := 0;
    while n < |entries|
      invariant 0 <= n <= |entries|
      invariant Summed(sums, entries[..n], keyOf) && Listed(order, sums.Keys)
    {
      assert entries[..n + 1][..n] == entries[..n];
      sums, order := Collect(sums, order, entries[n], keyOf(entries[n]), entries[..n + 1], keyOf);
      n := n + 1;
    }
    assert entries[..n] == entries;
    order := SortKeys(order);
    rows := Rows(sums, order, entries, keyOf);
  }

  /** The same keys in strictly ascending order. */
  method SortKeys(order: seq<Key>) returns (sorted: seq<Key>)
    requires forall i, j :: 0 <= i < j < |order| ==> order[i] != order[j]
    ensures forall i, j :: 0 <= i < j < |sorted| ==> KeyLess(sorted[i], sorted[j])
    ensures forall key :: key in sorted <==> key in order
  {
    var same: Key -> seq<string> := key => key;
    sorted := Sort(order, same);
    SameKeys(order, sorted);
    SortedStrictly(sorted, same);
  }

  lemma SameKeys(a: seq<Key>, b: seq<Key>)
    requires multiset(a) == multiset(b) && forall i, j :: 0 <= i < j < |a| ==> a[i] != a[j]
    ensures forall i, j :: 0 <= i < j < |b| ==> b[i] != b[j]
    ensures forall key :: key in b <==> key in a
  {
    forall key ensures key in b <==> key in a {
      assert key in a <==> key in multiset(a);
      assert key in b <==> key in multiset(b);
    }
    forall i, j | 0 <= i < j < |b| ensures b[i] != b[j] {
      if b[i] == b[j] {
        TwiceMeansTwo(b, i, j);
        OnceMeansOne(a, b[i]);
      }
    }
  }

  lemma TwiceMeansTwo(b: seq<Key>, i: nat, j: nat)
    requires i < j < |b| && b[i] == b[j]
    ensures multiset(b)[b[i]] >= 2
  {
    assert b == b[..j] + b[j..];
    assert b[..j][i] == b[i] && b[j..][0] == b[j];
    assert multiset(b) == multiset(b[..j]) + multiset(b[j..]);
    assert b[i] in multiset(b[..j]) && b[j] in multiset(b[j..]);
  }

  lemma {:induction false} OnceMeansOne(a: seq<Key>, key: Key)
    requires forall i, j :: 0 <= i < j < |a| ==> a[i] != a[j]
    ensures multiset(a)[key] <= 1
  {
    if a == [] {
    } else {
      var init, last := a[..|a| - 1], a[|a| - 1];
      OnceMeansOne(init, key);
      assert a == init + [last];
      if key == last {
        assert key !in init;
        assert multiset(init)[key] == 0;
      }
    }
  }

  method Rows(sums: map<Key, Sums>, sorted: seq<Key>, ghost entries: seq<Entry>, ghost keyOf: Entry -> Key)
    returns (rows: seq<Row>)
    requires sums.Keys == EntryKeys(entries, keyOf)
    requires forall key :: key in sums ==> SumsFor(sums[key], entries, keyOf, key)
    requires forall key :: key in sorted <==> key in sums
    requires forall i, j :: 0 <= i < j < |sorted| ==> KeyLess(sorted[i], sorted[j])
    ensures Tabulates(rows, entries, keyOf)
  {
    rows := [];
    var n := 0;
    while n < |sorted|
      invariant 0 <= n <= |sorted| && |rows| == n
      invariant forall i :: 0 <= i < n ==> sorted[i] in sums && rows[i] == Row(sorted[i], sums[sorted[i]])
    {
      rows := rows + [Row(sorted[n], sums[sorted[n]])];
      n := n + 1;
    }
    forall key ensures key in RowKeys(rows) <==> key in sums {
      if key in sums {
        var i :| 0 <= i < |sorted| && sorted[i] == key;
        assert rows[i].key == key;
      }
    }
  }

  // ----- What each row carries, figure by figure -----

  /** The entry is counted under this key: its process and interface, and in the breakdown its
      direction, which is "unknown" when absent. */
  predicate CountedUnder(e: Entry, key: Key) {
    && 2 <= |key| <= 3 && key[0] == e.process && key[1] == e.iface
    && (|key| == 3 ==> key[2] == if e.direction == "" then "unknown" else e.direction)
  }

  function SumBy(entries: seq<Entry>, key: Key, amount: Entry -> real): real {
    if entries == [] then 0.0 else
    var e := entries[|entries| - 1];
    SumBy(entries[..|entries| - 1], key, amount) + if CountedUnder(e, key) then amount(e) else 0.0
  }

  /** The row counts the entries under its key and adds up their packets and buffers. */
  ghost predicate Carries(row: Row, entries: seq<Entry>) {
    && row.sums.listeners == SumBy(entries, row.key, e => 1.0)
    && row.sums.received == SumBy(entries, row.key, (e: Entry) => e.received)
    && row.sums.dropped == SumBy(entries, row.key, (e: Entry) => e.dropped)
    && row.sums.matched == SumBy(entries, row.key, (e: Entry) => e.filtered)
    && row.sums.store == SumBy(entries, row.key, (e: Entry) => e.store)
    && row.sums.hold == SumBy(entries, row.key, (e: Entry) => e.hold)
  }

  lemma {:induction false} SumByIsSumFor(entries: seq<Entry>, keyOf: Entry -> Key, key: Key, f: Figure, amount: Entry -> real)
    requires forall e :: amount(e) == Amount(e, f)
    requires forall e :: CountedUnder(e, key) <==> keyOf(e) == key
    ensures SumBy(entries, key, amount) == SumFor(entries, keyOf, key, f)
  {
    if entries == [] {
    } else {
      SumByIsSumFor(entries[..|entries| - 1], keyOf, key, f, amount);
    }
  }

  /** The keys say exactly what counts under this one. */
  ghost predicate Tells(keyOf: Entry -> Key, key: Key) {
    forall e :: CountedUnder(e, key) <==> keyOf(e) == key
  }

  lemma RowCarries(row: Row, entries: seq<Entry>, keyOf: Entry -> Key)
    requires SumsFor(row.sums, entries, keyOf, row.key) && Tells(keyOf, row.key)
    ensures Carries(row, entries)
  {
    SumByIsSumFor(entries, keyOf, row.key, Listeners, e => 1.0);
    SumByIsSumFor(entries, keyOf, row.key, Received, (e: Entry) => e.received);
    SumByIsSumFor(entries, keyOf, row.key, Dropped, (e: Entry) => e.dropped);
    SumByIsSumFor(entries, keyOf, row.key, Matched, (e: Entry) => e.filtered);
    SumByIsSumFor(entries, keyOf, row.key, StoreBuffer, (e: Entry) => e.store);
    SumByIsSumFor(entries, keyOf, row.key, HoldBuffer, (e: Entry) => e.hold);
    assert row.sums.listeners == row.sums.Get(Listeners) && row.sums.received == row.sums.Get(Received);
    assert row.sums.dropped == row.sums.Get(Dropped) && row.sums.matched == row.sums.Get(Matched);
    assert row.sums.store == row.sums.Get(StoreBuffer) && row.sums.hold == row.sums.Get(HoldBuffer);
  }

  ghost predicate HasEntry(entries: seq<Entry>, key: Key) {
    exists j :: 0 <= j < |entries| && CountedUnder(entries[j], key)
  }

  ghost predicate HasRow(rows: seq<Row>, e: Entry) {
    exists i :: 0 <= i < |rows| && CountedUnder(e, rows[i].key)
  }

  /** Keys of this many parts, every row with an entry and the sums of its entries, and every
      entry with a row. */
  ghost predicate Reports(rows: seq<Row>, entries: seq<Entry>, parts: nat) {
    && (forall i :: 0 <= i < |rows| ==> |rows[i].key| == parts && HasEntry(entries, rows[i].key) && Carries(rows[i], entries))
    && (forall j :: 0 <= j < |entries| ==> HasRow(rows, entries[j]))
  }

  lemma RowReports(rows: seq<Row>, entries: seq<Entry>, keyOf: Entry -> Key, i: nat)
    requires Tabulates(rows, entries, keyOf) && i < |rows| && (forall e :: Tells(keyOf, keyOf(e)))
    ensures HasEntry(entries, rows[i].key) && Carries(rows[i], entries)
    ensures exists e :: keyOf(e) == rows[i].key
  {
    assert rows[i].key in RowKeys(rows);
    var j :| 0 <= j < |entries| && keyOf(entries[j]) == rows[i].key;
    assert Tells(keyOf, keyOf(entries[j]));
    RowCarries(rows[i], entries, keyOf);
  }

  lemma EntryHasRow(rows: seq<Row>, entries: seq<Entry>, keyOf: Entry -> Key, j: nat)
    requires Tabulates(rows, entries, keyOf) && j < |entries| && Tells(keyOf, keyOf(entries[j]))
    ensures HasRow(rows, entries[j])
  {
    assert keyOf(entries[j]) in EntryKeys(entries, keyOf);
    var i :| 0 <= i < |rows| && rows[i].key == keyOf(entries[j]);
  }

  lemma TableReports(rows: seq<Row>, entries: seq<Entry>, keyOf: Entry -> Key, parts: nat)
    requires Tabulates(rows, entries, keyOf) && forall e :: |keyOf(e)| == parts && Tells(keyOf, keyOf(e))
    ensures Reports(rows, entries, parts)
  {
    forall i | 0 <= i < |rows|
      ensures |rows[i].key| == parts && HasEntry(entries, rows[i].key) && Carries(rows[i], entries)
    {
      RowReports(rows, entries, keyOf, i);
    }
    forall j | 0 <= j < |entries| ensures HasRow(rows, entries[j]) {
      EntryHasRow(rows, entries, keyOf, j);
    }
  }

  lemma KeysTell(e: Entry)
    ensures Tells(PairKey, PairKey(e)) && Tells(DirectionKey, DirectionKey(e))
  {
  }

  /** The whole statistics: how many entries, the listeners, the breakdown by direction. */
  method Statistics(entries: seq<Entry>) returns (total: nat, listeners: seq<Row>, byDirection: seq<Row>)
    ensures total == |entries|
    ensures Tabulates(listeners, entries, PairKey) && Tabulates(byDirection, entries, DirectionKey)
    ensures RowsWhere(byDirection, key => true, Listeners) == total as real
    ensures forall i :: 0 <= i < |listeners| ==> FoldsTo(byDirection, listeners[i])
    ensures Reports(listeners, entries, 2) && Reports(byDirection, entries, 3)
  {
    total := |entries|;
    listeners := Aggregate(entries, PairKey);
    byDirection := Aggregate(entries, DirectionKey);
    BreakdownAgrees(entries, listeners, byDirection);
    forall e ensures Tells(PairKey, PairKey(e)) && Tells(DirectionKey, DirectionKey(e)) {
      KeysTell(e);
    }
    TableReports(listeners, entries, PairKey, 2);
    TableReports(byDirection, entries, DirectionKey, 3);
  }
}
