/** Sessions of a captive portal attributed to its zones, and the zone map off the wire. */
module CaptivePortal {
  import opened Wrappers
  import opened Decimal
  import opened Totals
  import opened Order

  // ----- The zone map on the wire -----

  /** A zone map arrives as nothing, as a list, as an object, or broken. */
  datatype Wire = Nothing | List(descriptions: seq<string>) | Object(zones: map<string, string>) | Broken

  type Zones = map<string, string>

  /** One of the ids 0, 1, ... n - 1, written as numerals. */
  ghost predicate IdBelow(numeral: nat -> string, id: string, n: nat) {
    exists i: nat :: i < n && id == numeral(i)
  }

  /** The zones with the ids 0, 1, ... have these descriptions, and there are no others. */
  ghost predicate Numbers(numeral: nat -> string, zones: Zones, descriptions: seq<string>) {
    && (forall id :: id in zones <==> IdBelow(numeral, id, |descriptions|))
    && (forall i: nat :: i < |descriptions| ==> numeral(i) in zones && zones[numeral(i)] == descriptions[i])
  }

  /** How a zone map is written: ids counting up from zero as a list, any others as an
      object; an empty one as a list, or not at all. */
  ghost predicate Writes(zones: Zones, wire: Wire) {
    match wire
    case Nothing => zones == map[]
    case List(descriptions) => Numbers(Itoa, zones, descriptions)
    case Object(written) => written == zones
    case Broken => false
  }

  /** Every way to write a zone map decodes to it, and nothing else decodes. */
  method DecodeZones(wire: Wire) returns (r: Result<Zones, string>)
    ensures forall zones :: Writes(zones, wire) <==> r == Ok(zones)
  {
    match wire
    case Nothing => r := Ok(map[]);
    case Object(zones) => r := Ok(zones);
    case Broken => r := Err("captivePortalZoneMap");
    case List(descriptions) =>
      NumeralsDiffer();
      var zones := DecodeList(Itoa, descriptions);
      forall other | Writes(other, wire) ensures other == zones {
        SameZones(Itoa, zones, other, descriptions);
      }
      r := Ok(zones);
  }

  lemma NumeralsDiffer()
    ensures forall i: nat, j: nat :: Itoa(i) == Itoa(j) ==> i == j
  {
    forall i: nat, j: nat | Itoa(i) == Itoa(j) ensures i == j {
      ItoaInjective(i, j);
    }
  }

  /** Each description under its own index. */
  method DecodeList(numeral: nat -> string, descriptions: seq<string>) returns (zones: Zones)
    requires forall i: nat, j: nat :: numeral(i) == numeral(j) ==> i == j
    ensures Numbers(numeral, zones, descriptions)
  {
    zones := map[];
    var i := 0;
    while i < |descriptions|
      invariant 0 <= i <= |descriptions| && Numbers(numeral, zones, descriptions[..i])
    {
      NumbersMore(numeral, zones, descriptions[..i + 1]);
      assert descriptions[..i + 1][..i] == descriptions[..i];
      zones := zones[numeral(i) := descriptions[i]];
      i := i + 1;
    }
    assert descriptions[..i] == descriptions;
  }

  lemma NumbersMore(numeral: nat -> string, zones: Zones, descriptions: seq<string>)
    requires forall i: nat, j: nat :: numeral(i) == numeral(j) ==> i == j
    requires descriptions != [] && Numbers(numeral, zones, descriptions[..|descriptions| - 1])
    ensures var n := |descriptions| - 1; Numbers(numeral, zones[numeral(n) := descriptions[n]], descriptions)
  {
    var n := |descriptions| - 1;
    forall id ensures IdBelow(numeral, id, n + 1) <==> IdBelow(numeral, id, n) || id == numeral(n) {
      if IdBelow(numeral, id, n + 1) {
        var i: nat :| i < n + 1 && id == numeral(i);
      }
    }
  }

  lemma SameZones(numeral: nat -> string, a: Zones, b: Zones, descriptions: seq<string>)
    requires Numbers(numeral, a, descriptions) && Numbers(numeral, b, descriptions)
    ensures a == b
  {
    forall id | id in a || id in b ensures id in a && id in b && a[id] == b[id] {
      assert IdBelow(numeral, id, |descriptions|);
      var i: nat :| i < |descriptions| && id == numeral(i);
    }
  }

  /** Every zone map can be written as an object, and as a list whenever its ids count up
      from zero. */
  lemma EveryMapIsWritten(zones: Zones, n: nat)
    ensures Writes(zones, Object(zones))
    ensures (forall id :: id in zones <==> IdBelow(Itoa, id, n)) ==>
      exists descriptions :: |descriptions| == n && Writes(zones, List(descriptions))
  {
    if forall id :: id in zones <==> IdBelow(Itoa, id, n) {
      forall i: nat | i < n ensures Itoa(i) in zones {
        assert IdBelow(Itoa, Itoa(i), n);
      }
      var descriptions := seq(n, i requires 0 <= i < n => zones[Itoa(i)]);
      assert Numbers(Itoa, zones, descriptions);
    }
  }

  // ----- Sessions -----

  datatype Zone = Zone(id: string, description: string, sessions: real)

  const UNKNOWN: string := "unknown"

  function Counted(rows: seq<string>): seq<Charge> {
    if rows == [] then [] else Counted(rows[..|rows| - 1]) + [Charge(rows[|rows| - 1], 1.0)]
  }

  /** How many rows carry this zone id. */
  function Sessions(rows: seq<string>, id: string): real {
    if rows == [] then 0.0 else
    Sessions(rows[..|rows| - 1], id) + if rows[|rows| - 1] == id then 1.0 else 0.0
  }

  /** How many rows belong to no configured zone. */
  function Orphans(rows: seq<string>, zones: Zones): real {
    if rows == [] then 0.0 else
    Orphans(rows[..|rows| - 1], zones) + if rows[|rows| - 1] in zones then 0.0 else 1.0
  }

  function SumOf(zones: seq<Zone>): real {
    if zones == [] then 0.0 else SumOf(zones[..|zones| - 1]) + zones[|zones| - 1].sessions
  }

  lemma SumMore(zones: seq<Zone>, z: Zone)
    ensures SumOf(zones + [z]) == SumOf(zones) + z.sessions
  {
    assert (zones + [z])[..|zones|] == zones;
  }

  lemma {:induction false} SumConcat(a: seq<Zone>, b: seq<Zone>)
    ensures SumOf(a + b) == SumOf(a) + SumOf(b)
  {
    if b == [] {
      assert a + b == a;
    } else {
      SumConcat(a, b[..|b| - 1]);
      assert (a + b)[..|a + b| - 1] == a + b[..|b| - 1];
    }
  }

  lemma SumMiddle(x: seq<Zone>, z: Zone, y: seq<Zone>)
    ensures SumOf((x + [z]) + y) == SumOf(x + y) + z.sessions
  {
    SumConcat(x + [z], y);
    SumMore(x, z);
    SumConcat(x, y);
  }

  lemma SumWithout(b: seq<Zone>, k: nat)
    requires k < |b|
    ensures SumOf(b) == SumOf(b[..k] + b[k + 1..]) + b[k].sessions
  {
    SumMiddle(b[..k], b[k], b[k + 1..]);
    Rejoined(b, k);
  }

  lemma Rejoined(b: seq<Zone>, k: nat)
    requires k < |b|
    ensures (b[..k] + [b[k]]) + b[k + 1..] == b
  {
  }

  lemma TakenOut(b: seq<Zone>, k: nat)
    requires k < |b|
    ensures multiset(b[..k] + b[k + 1..]) == multiset(b) - multiset{b[k]}
  {
    assert b == b[..k] + [b[k]] + b[k + 1..];
  }

  /** The order of the zones does not matter to their sum. */
  lemma {:induction false} SumOfPermutation(a: seq<Zone>, b: seq<Zone>)
    requires multiset(a) == multiset(b)
    ensures SumOf(a) == SumOf(b)
    decreases |a|
  {
    if a == [] {
      assert |multiset(a)| == |multiset(b)|;
      assert b == [];
    } else {
      var init, last := a[..|a| - 1], a[|a| - 1];
      assert a == init + [last];
      assert last in multiset(b);
      var k :| 0 <= k < |b| && b[k] == last;
      TakenOut(b, k);
      SumOfPermutation(init, b[..k] + b[k + 1..]);
      SumWithout(b, k);
    }
  }

  lemma {:induction false} CountedSum(rows: seq<string>)
    ensures Sum(Counted(rows)) == |rows| as real
  {
    if rows == [] {
    } else {
      CountedSum(rows[..|rows| - 1]);
      var charges := Counted(rows[..|rows| - 1]);
      assert (charges + [Charge(rows[|rows| - 1], 1.0)])[..|charges|] == charges;
    }
  }

  lemma {:induction false} CountedFor(rows: seq<string>, id: string)
    ensures SumFor(Counted(rows), id) == Sessions(rows, id)
  {
    if rows == [] {
    } else {
      CountedFor(rows[..|rows| - 1], id);
      var charges := Counted(rows[..|rows| - 1]);
      assert (charges + [Charge(rows[|rows| - 1], 1.0)])[..|charges|] == charges;
    }
  }

  // ----- Attribution -----

  /** The ids, each once. */
  ghost predicate Enumerates(order: seq<string>, ids: set<string>) {
    && (forall id :: id in order <==> id in ids)
    && (forall i, j :: 0 <= i < j < |order| ==> order[i] != order[j])
  }

  /** The configured zones with the sessions of each. */
  function Configured(order: seq<string>, zones: Zones, rows: seq<string>): seq<Zone>
    requires forall id :: id in order ==> id in zones
  {
    if order == [] then [] else
    var id := order[|order| - 1];
    Configured(order[..|order| - 1], zones, rows) + [Zone(id, zones[id], Sessions(rows, id))]
  }

  /** The rows of no configured zone, if there are any, in a zone of their own. */
  ghost function Remainder(zones: Zones, rows: seq<string>): seq<Zone> {
    if exists row :: row in rows && row !in zones then [Zone(UNKNOWN, "", Orphans(rows, zones))] else []
  }

  lemma {:induction false} OrphansExist(rows: seq<string>, zones: Zones)
    ensures Orphans(rows, zones) >= 0.0
    ensures Orphans(rows, zones) > 0.0 <==> exists row :: row in rows && row !in zones
  {
    if rows == [] {
    } else {
      var init, last := rows[..|rows| - 1], rows[|rows| - 1];
      OrphansExist(init, zones);
      assert forall row :: row in rows <==> row in init || row == last;
    }
  }

  lemma AddedLeft(counts: map<string, real>, ids: set<string>, id: string)
    ensures MapSum(Added(counts, id, 1.0) - ids) == MapSum(counts - ids) + if id in ids then 0.0 else 1.0
  {
    if id in ids {
      assert Added(counts, id, 1.0) - ids == counts - ids;
    } else {
      assert Added(counts, id, 1.0) - ids == Added(counts - ids, id, 1.0);
      AddedSum(counts - ids, id, 1.0);
    }
  }

  /** What is left of the counts without the zones are the orphans. */
  lemma {:induction false} LeftAreOrphans(rows: seq<string>, zones: Zones)
    ensures MapSum(Grouped(Counted(rows)) - zones.Keys) == Orphans(rows, zones)
  {
    if rows == [] {
      assert Grouped(Counted(rows)) - zones.Keys == map[];
    } else {
      var init, last := rows[..|rows| - 1], rows[|rows| - 1];
      LeftAreOrphans(init, zones);
      GroupedMore(Counted(init), last, 1.0);
      AddedLeft(Grouped(Counted(init)), zones.Keys, last);
    }
  }

  /** Taking one zone out of the counts moves its sessions. */
  lemma TakeZone(counts: map<string, real>, id: string)
    ensures MapSum(counts) == MapSum(counts - {id}) + if id in counts then counts[id] else 0.0
  {
    if id in counts {
      MapSumWithout(counts, id);
    } else {
      assert counts - {id} == counts;
    }
  }

  lemma CountsAreSessions(rows: seq<string>)
    ensures var counts := Grouped(Counted(rows));
      forall id :: Sessions(rows, id) == if id in counts then counts[id] else 0.0
  {
    var counts := Grouped(Counted(rows));
    forall id ensures Sessions(rows, id) == if id in counts then counts[id] else 0.0 {
      GroupedAt(Counted(rows), id);
      CountedFor(rows, id);
    }
  }

  /** The sessions by zone id. */
  method CountSessions(rows: seq<string>) returns (counts: map<string, real>)
    ensures counts == Grouped(Counted(rows))
  {
    counts := map[];
    var i := 0;
    while i < |rows|
      invariant 0 <= i <= |rows| && counts == Grouped(Counted(rows[..i]))
    {
      assert rows[..i + 1][..i] == rows[..i];
      GroupedMore(Counted(rows[..i]), rows[i], 1.0);
      counts := Added(counts, rows[i], 1.0);
      i := i + 1;
    }
    assert rows[..i] == rows;
  }

  method AddUp(counts: map<string, real>) returns (sum: real)
    ensures sum == MapSum(counts)
  {
    sum := 0.0;
    var rest := counts;
    while rest != map[]
      invariant sum + MapSum(rest) == MapSum(counts)
      decreases |rest|
    {
      var id :| id in rest;
      MapSumWithout(rest, id);
      Smaller(rest, id);
      sum := sum + rest[id];
      rest := rest - {id};
    }
  }

  /** One entry for each configured zone, taken out of the counts in any order. */
  method TakeZones(zones: Zones, ghost rows: seq<string>, all: map<string, real>)
    returns (taken: seq<Zone>, left: map<string, real>, ghost order: seq<string>)
    requires forall id :: Sessions(rows, id) == if id in all then all[id] else 0.0
    ensures Enumerates(order, zones.Keys) && taken == Configured(order, zones, rows)
    ensures left == all - zones.Keys
    ensures SumOf(taken) + MapSum(left) == MapSum(all)
  {
    taken, left, order := [], all, [];
    var rest := zones.Keys;
    ghost var done: set<string> := {};
    assert all - done == all;
    while rest != {}
      invariant rest !! done && rest + done == zones.Keys
      invariant Enumerates(order, done) && taken == Configured(order, zones, rows)
      invariant left == all - done
      invariant SumOf(taken) + MapSum(left) == MapSum(all)
      decreases rest
    {
      var id :| id in rest;
      var sessions := if id in left then left[id] else 0.0;
      TakeStep(zones, rows, all, order, done, id);
      taken, order := taken + [Zone(id, zones[id], sessions)], order + [id];
      left, rest, done := left - {id}, rest - {id}, done + {id};
    }
  }

  lemma TakeStep(zones: Zones, rows: seq<string>, all: map<string, real>, order: seq<string>, done: set<string>, id: string)
    requires Sessions(rows, id) == if id in all then all[id] else 0.0
    requires Enumerates(order, done) && done <= zones.Keys && id in zones && id !in done
    ensures Enumerates(order + [id], done + {id})
    ensures var left, taken := all - done, Configured(order, zones, rows);
      && Configured(order + [id], zones, rows) == taken + [Zone(id, zones[id], if id in left then left[id] else 0.0)]
      && left - {id} == all - (done + {id})
      && SumOf(Configured(order + [id], zones, rows)) + MapSum(left - {id}) == SumOf(taken) + MapSum(left)
  {
    var left := all - done;
    MinusMore(all, done, id);
    ConfiguredMore(order, id, zones, rows);
    SumStep(Configured(order, zones, rows), left, Zone(id, zones[id], if id in left then left[id] else 0.0));
    EnumeratesMore(order, done, id);
  }

  lemma MinusMore(all: map<string, real>, done: set<string>, id: string)
    ensures all - done - {id} == all - (done + {id})
    ensures id !in done ==> (id in all - done <==> id in all) && (id in all ==> (all - done)[id] == all[id])
  {
  }

  lemma SumStep(taken: seq<Zone>, left: map<string, real>, z: Zone)
    requires z.sessions == if z.id in left then left[z.id] else 0.0
    ensures SumOf(taken + [z]) + MapSum(left - {z.id}) == SumOf(taken) + MapSum(left)
  {
    TakeZone(left, z.id);
    SumMore(taken, z);
  }

  lemma EnumeratesMore(order: seq<string>, ids: set<string>, id: string)
    requires Enumerates(order, ids) && id !in ids
    ensures Enumerates(order + [id], ids + {id})
  {
  }

  lemma ConfiguredMore(order: seq<string>, id: string, zones: Zones, rows: seq<string>)
    requires (forall id :: id in order ==> id in zones) && id in zones
    ensures Configured(order + [id], zones, rows) == Configured(order, zones, rows) + [Zone(id, zones[id], Sessions(rows, id))]
  {
    assert (order + [id])[..|order|] == order;
  }

  lemma {:induction false} SessionsAreRows(rows: seq<string>, id: string)
    ensures Sessions(rows, id) == multiset(rows)[id] as real
  {
    if rows == [] {
    } else {
      SessionsAreRows(rows[..|rows| - 1], id);
      assert rows == rows[..|rows| - 1] + [rows[|rows| - 1]];
    }
  }

  lemma {:induction false} ConfiguredHas(order: seq<string>, zones: Zones, rows: seq<string>, id: string)
    requires (forall id :: id in order ==> id in zones) && id in order
    ensures Zone(id, zones[id], multiset(rows)[id] as real) in Configured(order, zones, rows)
  {
    if id == order[|order| - 1] {
      SessionsAreRows(rows, id);
    } else {
      ConfiguredHas(order[..|order| - 1], zones, rows, id);
    }
  }

  /** Every configured zone has an entry with its description and the rows with its id, and
      the rows of no zone have one. */
  ghost predicate Listed(entries: seq<Zone>, zones: Zones, rows: seq<string>) {
    && (forall id :: id in zones ==> Zone(id, zones[id], multiset(rows)[id] as real) in entries)
    && ((exists row :: row in rows && row !in zones) ==> Zone("unknown", "", Orphans(rows, zones)) in entries)
  }

  lemma EveryZoneIsListed(entries: seq<Zone>, order: seq<string>, zones: Zones, rows: seq<string>)
    requires Enumerates(order, zones.Keys)
    requires multiset(entries) == multiset(Configured(order, zones, rows) + Remainder(zones, rows))
    ensures Listed(entries, zones, rows)
  {
    var all := Configured(order, zones, rows) + Remainder(zones, rows);
    forall z | z in all ensures z in entries {
      assert z in multiset(all);
    }
    forall id | id in zones ensures Zone(id, zones[id], multiset(rows)[id] as real) in entries {
      ConfiguredHas(order, zones, rows, id);
    }
  }

  function IdOf(z: Zone): seq<string> { [z.id] }

  /** Attributes the session rows to the zones. Without zones there is nothing. Otherwise
      every configured zone has exactly one entry with its own sessions, there is one more
      entry exactly when some rows belong to no zone, the sessions of all entries are the
      rows, and the entries are ordered by id. */
  method Attribute(zones: Zones, rows: seq<string>) returns (entries: seq<Zone>)
    ensures zones == map[] ==> entries == []
    ensures zones != map[] ==> SumOf(entries) == |rows| as real
    ensures zones != map[] ==> exists order ::
      && Enumerates(order, zones.Keys)
      && multiset(entries) == multiset(Configured(order, zones, rows) + Remainder(zones, rows))
    ensures Sorted(entries, IdOf)
    ensures zones != map[] ==> Listed(entries, zones, rows)
  {
    if zones == map[] {
      return [];
    }
    var counts := CountSessions(rows);
    CountedSum(rows);
    CountsAreSessions(rows);
    GroupedSum(Counted(rows));
    var taken, left, order := TakeZones(zones, rows, counts);
    var unknown := AddUp(left);
    LeftAreOrphans(rows, zones);
    OrphansExist(rows, zones);
    if unknown > 0.0 {
      SumMore(taken, Zone(UNKNOWN, "", unknown));
      taken := taken + [Zone(UNKNOWN, "", unknown)];
    } else {
      assert taken == taken + Remainder(zones, rows);
    }
    assert Enumerates(order, zones.Keys) && taken == Configured(order, zones, rows) + Remainder(zones, rows);
    entries := Sort(taken, IdOf);
    SumOfPermutation(entries, taken);
    EveryZoneIsListed(entries, order, zones, rows);
  }

  /** The ids of the entries are distinct unless a configured zone has the name of the
      remainder and there is one. */
  lemma IdsAreDistinct(order: seq<string>, zones: Zones, rows: seq<string>)
    requires Enumerates(order, zones.Keys)
    ensures var entries := Configured(order, zones, rows) + Remainder(zones, rows);
      (forall i, j :: 0 <= i < j < |entries| ==> entries[i].id != entries[j].id)
      <==> UNKNOWN !in zones || forall row :: row in rows ==> row in zones
  {
    var configured := Configured(order, zones, rows);
    ConfiguredIds(order, zones, rows);
    var entries := configured + Remainder(zones, rows);
    if UNKNOWN in zones && exists row :: row in rows && row !in zones {
      var k :| 0 <= k < |order| && order[k] == UNKNOWN;
      assert entries[k].id == entries[|order|].id;
    }
  }

  lemma {:induction false} ConfiguredIds(order: seq<string>, zones: Zones, rows: seq<string>)
    requires forall id :: id in order ==> id in zones
    ensures |Configured(order, zones, rows)| == |order|
    ensures forall i :: 0 <= i < |order| ==> Configured(order, zones, rows)[i].id == order[i]
  {
    if order == [] {
    } else {
      ConfiguredIds(order[..|order| - 1], zones, rows);
    }
  }
}
