/** Configuration snapshots: sensitive fields pruned at every depth, and an identity for
    each row. */
module Snapshot {
  import opened Wrappers
  import opened Secrets

  /** A decoded value; an atom is a number, a truth value or null. */
  datatype Value = Object(fields: map<string, Value>) | List(items: seq<Value>) | Text(text: string) | Atom(literal: string)

  // ----- Pruning -----

  type Secrecy = string -> bool

  function Pruned(secret: Secrecy, v: Value): Value {
    match v
    case Object(fields) => Object(map k | k in fields && !secret(k) :: Pruned(secret, fields[k]))
    case List(items) => List(seq(|items|, i requires 0 <= i < |items| => Pruned(secret, items[i])))
    case Text(_) => v
    case Atom(_) => v
  }

  /** A step from a value to one inside it. */
  datatype Step = Field(name: string) | Item(index: nat)

  function Down(v: Value, step: Step): Option<Value> {
    match (v, step)
    case (Object(fields), Field(name)) => if name in fields then Some(fields[name]) else None
    case (List(items), Item(index)) => if index < |items| then Some(items[index]) else None
    case _ => None
  }

  /** What a path leads to. */
  function At(v: Value, path: seq<Step>): Option<Value>
    decreases |path|
  {
    if path == [] then Some(v) else
    var inner := Down(v, path[0]);
    if inner.None? then None else At(inner.value, path[1..])
  }

  predicate Clean(secret: Secrecy, path: seq<Step>) {
    forall i :: 0 <= i < |path| && path[i].Field? ==> !secret(path[i].name)
  }

  lemma DownPruned(secret: Secrecy, v: Value, step: Step)
    ensures Down(Pruned(secret, v), step) ==
      if (step.Field? && secret(step.name)) || Down(v, step).None? then None
      else Some(Pruned(secret, Down(v, step).value))
  {
  }

  /** A path with a sensitive key leads nowhere after pruning, and every other path leads to
      what it led to before, itself pruned: nothing sensitive stays and nothing else goes. */
  lemma {:induction false} PruningByPath(secret: Secrecy, v: Value, path: seq<Step>)
    ensures At(Pruned(secret, v), path) ==
      if !Clean(secret, path) || At(v, path).None? then None
      else Some(Pruned(secret, At(v, path).value))
    decreases |path|
  {
    if path == [] {
    } else {
      DownPruned(secret, v, path[0]);
      var inner := Down(v, path[0]);
      CleanSteps(secret, path);
      if inner.Some? {
        PruningByPath(secret, inner.value, path[1..]);
      }
    }
  }

  lemma CleanSteps(secret: Secrecy, path: seq<Step>)
    requires path != []
    ensures Clean(secret, path) <==> !(path[0].Field? && secret(path[0].name)) && Clean(secret, path[1..])
  {
    if !(path[0].Field? && secret(path[0].name)) && Clean(secret, path[1..]) {
      forall i | 0 <= i < |path| && path[i].Field? ensures !secret(path[i].name) {
        if i > 0 {
          assert path[i] == path[1..][i - 1];
        }
      }
    }
  }

  /** Pruning twice is pruning once. */
  lemma {:induction false} PruningIsIdempotent(secret: Secrecy, v: Value)
    ensures Pruned(secret, Pruned(secret, v)) == Pruned(secret, v)
  {
    match v
    case Object(fields) =>
      forall k | k in fields ensures Pruned(secret, Pruned(secret, fields[k])) == Pruned(secret, fields[k]) {
        PruningIsIdempotent(secret, fields[k]);
      }
    case List(items) =>
      forall i | 0 <= i < |items| ensures Pruned(secret, Pruned(secret, items[i])) == Pruned(secret, items[i]) {
        PruningIsIdempotent(secret, items[i]);
      }
    case Text(_) =>
    case Atom(_) =>
  }

  /** Prunes field by field and item by item. */
  method RedactFields(secret: Secrecy, v: Value) returns (r: Value)
    ensures r == Pruned(secret, v)
    decreases v
  {
    match v
    case Object(fields) =>
      var kept := fields;
      var rest := fields.Keys;
      while rest != {}
        invariant rest <= fields.Keys && kept.Keys <= fields.Keys
        invariant forall k :: k in fields ==> (k in kept <==> k in rest || !secret(k))
        invariant forall k :: k in kept ==> kept[k] == if k in rest then fields[k] else Pruned(secret, fields[k])
        decreases rest
      {
        var key :| key in rest;
        if secret(key) {
          kept := kept - {key};
        } else {
          var child := RedactFields(secret, fields[key]);
          kept := kept[key := child];
        }
        rest := rest - {key};
      }
      assert kept == (map k | k in fields && !secret(k) :: Pruned(secret, fields[k]));
      r := Object(kept);
    case List(items) =>
      var kept := [];
      var i := 0;
      while i < |items|
        invariant 0 <= i <= |items| && |kept| == i
        invariant forall j :: 0 <= j < i ==> kept[j] == Pruned(secret, items[j])
      {
        var child := RedactFields(secret, items[i]);
        kept := kept + [child];
        i := i + 1;
      }
      r := List(kept);
    case Text(_) => r := v;
    case Atom(_) => r := v;
  }

  // ----- Rows and identities -----

  const UUID: string := "uuid"
  const SORT_ORDER: string := "sort_order"
  const FILTER_RULE: string := "filter_rule"
  const DELIMITER: char := ':'

  datatype Row = Undecodable | Config(fields: map<string, Value>)

  datatype RowError = NotDecoded | NoUuid | NoSortOrder(uuid: string)

  datatype Entity = Entity(kind: string, id: string, config: map<string, Value>)

  predicate Space(c: char) {
    || '\t' <= c <= '\r' || c == ' ' || c == '\U{85}' || c == '\U{A0}' || c == '\U{1680}'
    || '\U{2000}' <= c <= '\U{200A}' || c == '\U{2028}' || c == '\U{2029}' || c == '\U{202F}'
    || c == '\U{205F}' || c == '\U{3000}'
  }

  predicate Blank(s: string) { forall i :: 0 <= i < |s| ==> Space(s[i]) }

  /** A text field that is more than white space. */
  predicate Filled(fields: map<string, Value>, name: string) {
    name in fields && fields[name].Text? && !Blank(fields[name].text)
  }

  function PrunedFields(secret: Secrecy, fields: map<string, Value>): map<string, Value> {
    Pruned(secret, Object(fields)).fields
  }

  predicate Identified(row: Row) { row.Config? && Filled(row.fields, UUID) }

  ghost predicate AllIdentified(rows: seq<Row>) { forall i :: 0 <= i < |rows| ==> Identified(rows[i]) }

  function Uuid(row: Row): string
    requires Identified(row)
  {
    row.fields[UUID].text
  }

  /** Another row has the same UUID. */
  ghost predicate Repeated(rows: seq<Row>, i: nat)
    requires i < |rows| && AllIdentified(rows)
  {
    exists j :: 0 <= j < |rows| && j != i && Uuid(rows[j]) == Uuid(rows[i])
  }

  /** A repeated filter rule can be told from the others by its sort order. */
  ghost predicate Discerned(kind: string, rows: seq<Row>, i: nat)
    requires i < |rows| && AllIdentified(rows)
  {
    kind == FILTER_RULE && Repeated(rows, i) ==> Filled(rows[i].fields, SORT_ORDER)
  }

  ghost predicate Acceptable(kind: string, rows: seq<Row>) {
    AllIdentified(rows) && forall i :: 0 <= i < |rows| ==> Discerned(kind, rows, i)
  }

  function SortOrder(row: Row): string
    requires row.Config? && Filled(row.fields, SORT_ORDER)
  {
    row.fields[SORT_ORDER].text
  }

  ghost function IdOf(kind: string, rows: seq<Row>, i: nat): string
    requires i < |rows| && AllIdentified(rows) && Discerned(kind, rows, i)
  {
    if kind == FILTER_RULE && Repeated(rows, i) then Uuid(rows[i]) + [DELIMITER] + SortOrder(rows[i])
    else Uuid(rows[i])
  }

  /** The longer text starts with the shorter one and the delimiter, and x is all the rest. */
  predicate Spells(a: string, x: string, b: string, y: string) {
    a + [DELIMITER] <= b && x == b[|a| + 1..] + y
  }

  lemma JoinedEqual(a: string, x: string, b: string, y: string)
    requires |a| < |b|
    ensures a + [DELIMITER] + x == b + y <==> Spells(a, x, b, y)
  {
    var s, t := a + [DELIMITER] + x, b + y;
    if s == t {
      assert s[..|a| + 1] == a + [DELIMITER] && t[..|a| + 1] == b[..|a| + 1];
      assert s[|a| + 1..] == x && t[|a| + 1..] == b[|a| + 1..] + y;
    }
    if a + [DELIMITER] <= b && x == b[|a| + 1..] + y {
      assert b == a + [DELIMITER] + b[|a| + 1..];
    }
  }

  lemma SameLength(a: string, x: string, b: string, y: string)
    requires |a| == |b|
    ensures a + x == b + y <==> a == b && x == y
  {
    if a + x == b + y {
      assert (a + x)[..|a|] == a && (b + y)[..|b|] == b && (a + x)[|a|..] == x && (b + y)[|b|..] == y;
    }
  }

  /** What is appended to the UUID of row i. */
  ghost function Suffix(kind: string, rows: seq<Row>, i: nat): string
    requires i < |rows| && AllIdentified(rows) && Discerned(kind, rows, i)
  {
    if kind == FILTER_RULE && Repeated(rows, i) then [DELIMITER] + SortOrder(rows[i]) else ""
  }

  /** The UUID of row j starts with that of row i and the delimiter, and the sort order of
      row i is all the rest of the identity of row j. */
  ghost predicate Overlaps(kind: string, rows: seq<Row>, i: nat, j: nat)
    requires i < |rows| && j < |rows| && AllIdentified(rows) && Discerned(kind, rows, i) && Discerned(kind, rows, j)
  {
    && kind == FILTER_RULE && Repeated(rows, i)
    && Spells(Uuid(rows[i]), SortOrder(rows[i]), Uuid(rows[j]), Suffix(kind, rows, j))
  }

  /** Rows that share their UUID and that no sort order of filter rules tells apart. */
  predicate Twins(kind: string, a: Row, b: Row)
    requires Identified(a) && Identified(b)
  {
    && Uuid(a) == Uuid(b)
    && (kind == FILTER_RULE ==>
         Filled(a.fields, SORT_ORDER) && Filled(b.fields, SORT_ORDER) && SortOrder(a) == SortOrder(b))
  }

  lemma ShorterUuid(kind: string, rows: seq<Row>, i: nat, j: nat)
    requires i < |rows| && j < |rows| && AllIdentified(rows) && Discerned(kind, rows, i) && Discerned(kind, rows, j)
    requires |Uuid(rows[i])| < |Uuid(rows[j])|
    ensures IdOf(kind, rows, i) == IdOf(kind, rows, j) <==> Overlaps(kind, rows, i, j)
  {
    var a, b, y := Uuid(rows[i]), Uuid(rows[j]), Suffix(kind, rows, j);
    IdIsUuidAndSuffix(kind, rows, j);
    if kind == FILTER_RULE && Repeated(rows, i) {
      assert IdOf(kind, rows, i) == a + [DELIMITER] + SortOrder(rows[i]);
      JoinedEqual(a, SortOrder(rows[i]), b, y);
    } else {
      assert IdOf(kind, rows, i) == a && |a| < |b + y|;
    }
  }

  lemma IdIsUuidAndSuffix(kind: string, rows: seq<Row>, i: nat)
    requires i < |rows| && AllIdentified(rows) && Discerned(kind, rows, i)
    ensures IdOf(kind, rows, i) == Uuid(rows[i]) + Suffix(kind, rows, i)
  {
    assert Uuid(rows[i]) + "" == Uuid(rows[i]);
  }

  /** UUIDs of one length overlap in nothing. */
  lemma EqualLengthUuids(kind: string, rows: seq<Row>, i: nat, j: nat)
    requires i < |rows| && j < |rows| && i != j && AllIdentified(rows) && Discerned(kind, rows, i) && Discerned(kind, rows, j)
    requires |Uuid(rows[i])| == |Uuid(rows[j])|
    ensures IdOf(kind, rows, i) == IdOf(kind, rows, j) <==> Twins(kind, rows[i], rows[j])
  {
    var x, y := Suffix(kind, rows, i), Suffix(kind, rows, j);
    IdIsUuidAndSuffix(kind, rows, i);
    IdIsUuidAndSuffix(kind, rows, j);
    SameLength(Uuid(rows[i]), x, Uuid(rows[j]), y);
    if Uuid(rows[i]) == Uuid(rows[j]) {
      assert Repeated(rows, i) && Repeated(rows, j);
      if kind == FILTER_RULE {
        SameLength([DELIMITER], SortOrder(rows[i]), [DELIMITER], SortOrder(rows[j]));
      }
    }
  }

  lemma OverlapIsLonger(kind: string, rows: seq<Row>, i: nat, j: nat)
    requires i < |rows| && j < |rows| && AllIdentified(rows) && Discerned(kind, rows, i) && Discerned(kind, rows, j)
    ensures Overlaps(kind, rows, i, j) ==> |Uuid(rows[i])| < |Uuid(rows[j])|
  {
  }

  /** Two rows get one identity exactly when they are twins, or they are filter rules and the
      identity of one, with its delimiter, spells out that of the other. */
  lemma SameIdentity(kind: string, rows: seq<Row>, i: nat, j: nat)
    requires i < |rows| && j < |rows| && i != j && AllIdentified(rows) && Discerned(kind, rows, i) && Discerned(kind, rows, j)
    ensures IdOf(kind, rows, i) == IdOf(kind, rows, j) <==>
      Twins(kind, rows[i], rows[j]) || Overlaps(kind, rows, i, j) || Overlaps(kind, rows, j, i)
  {
    OverlapIsLonger(kind, rows, i, j);
    OverlapIsLonger(kind, rows, j, i);
    if |Uuid(rows[i])| < |Uuid(rows[j])| {
      ShorterUuid(kind, rows, i, j);
    } else if |Uuid(rows[j])| < |Uuid(rows[i])| {
      ShorterUuid(kind, rows, j, i);
    } else {
      EqualLengthUuids(kind, rows, i, j);
    }
  }

  /** Identities are pairwise distinct exactly when rows that share a UUID are filter rules
      with different sort orders, as long as no UUID of a filter rule has the delimiter. */
  lemma IdsAreDistinct(kind: string, rows: seq<Row>)
    requires Acceptable(kind, rows)
    requires kind == FILTER_RULE ==> forall i :: 0 <= i < |rows| ==> DELIMITER !in Uuid(rows[i])
    ensures (forall i, j :: 0 <= i < j < |rows| ==> Apart(kind, rows, i, j)) <==>
      forall i, j :: 0 <= i < j < |rows| ==> !Twins(kind, rows[i], rows[j])
  {
    forall i, j | 0 <= i < j < |rows| ensures Apart(kind, rows, i, j) <==> !Twins(kind, rows[i], rows[j]) {
      assert Discerned(kind, rows, i) && Discerned(kind, rows, j);
      SameIdentity(kind, rows, i, j);
      NoOverlap(kind, rows, i, j);
      NoOverlap(kind, rows, j, i);
    }
  }

  lemma NoOverlap(kind: string, rows: seq<Row>, i: nat, j: nat)
    requires i < |rows| && j < |rows| && AllIdentified(rows) && Discerned(kind, rows, i) && Discerned(kind, rows, j)
    requires kind == FILTER_RULE ==> DELIMITER !in Uuid(rows[j])
    ensures !Overlaps(kind, rows, i, j)
  {
    if kind == FILTER_RULE && Uuid(rows[i]) + [DELIMITER] <= Uuid(rows[j]) {
      HasDelimiter(Uuid(rows[i]), Uuid(rows[j]));
    }
  }

  lemma HasDelimiter(a: string, b: string)
    requires a + [DELIMITER] <= b
    ensures DELIMITER in b
  {
    assert b[|a|] == (a + [DELIMITER])[|a|];
  }

  ghost predicate Apart(kind: string, rows: seq<Row>, i: nat, j: nat)
    requires i < |rows| && j < |rows| && Acceptable(kind, rows)
  {
    assert Discerned(kind, rows, i) && Discerned(kind, rows, j);
    IdOf(kind, rows, i) != IdOf(kind, rows, j)
  }

  function Named(uuid: string, order: string): Row {
    Config(map[UUID := Text(uuid), SORT_ORDER := Text(order)])
  }

  /** With a delimiter in a UUID a row can get the identity of a row with another UUID,
      whatever the names. */
  lemma DelimiterCollides(uuid: string, x: string, y: string, z: string)
    requires !Blank(uuid) && !Blank(x) && !Blank(y) && !Blank(z)
    ensures var other := uuid + [DELIMITER] + x;
      var rows := [Named(uuid, x), Named(uuid, y), Named(other, z)];
      && Acceptable(FILTER_RULE, rows) && Discerned(FILTER_RULE, rows, 0) && Discerned(FILTER_RULE, rows, 2)
      && IdOf(FILTER_RULE, rows, 0) == IdOf(FILTER_RULE, rows, 2) && Uuid(rows[0]) != Uuid(rows[2])
  {
    var other := uuid + [DELIMITER] + x;
    StillFilled(uuid, [DELIMITER] + x);
    assert uuid + ([DELIMITER] + x) == other;
    var rows := [Named(uuid, x), Named(uuid, y), Named(other, z)];
    assert |other| > |uuid|;
    NamedIs(uuid, x);
    NamedIs(uuid, y);
    NamedIs(other, z);
    assert Uuid(rows[0]) == Uuid(rows[1]);
    assert Repeated(rows, 0);
  }

  lemma NamedIs(uuid: string, order: string)
    requires !Blank(uuid) && !Blank(order)
    ensures var row := Named(uuid, order);
      Identified(row) && Uuid(row) == uuid && Filled(row.fields, SORT_ORDER) && SortOrder(row) == order
  {
    assert UUID[0] == 'u' && SORT_ORDER[0] == 's';
  }

  lemma StillFilled(s: string, t: string)
    requires !Blank(s)
    ensures !Blank(s + t)
  {
    var i :| 0 <= i < |s| && !Space(s[i]);
    assert (s + t)[i] == s[i];
  }

  // ----- Building the entities -----

  datatype Decoded = Decoded(id: string, config: map<string, Value>)

  function Count(decoded: seq<Decoded>, id: string): nat {
    if decoded == [] then 0 else
    Count(decoded[..|decoded| - 1], id) + if decoded[|decoded| - 1].id == id then 1 else 0
  }

  lemma {:induction false} CountOnce(decoded: seq<Decoded>, id: string)
    ensures Count(decoded, id) >= 1 <==> exists j :: 0 <= j < |decoded| && decoded[j].id == id
  {
    if decoded == [] {
    } else {
      CountOnce(decoded[..|decoded| - 1], id);
    }
  }

  lemma {:induction false} CountTwice(decoded: seq<Decoded>, i: nat)
    requires i < |decoded|
    ensures Count(decoded, decoded[i].id) > 1 <==> exists j :: 0 <= j < |decoded| && j != i && decoded[j].id == decoded[i].id
  {
    var n, id := |decoded| - 1, decoded[i].id;
    var init := decoded[..n];
    CountOnce(init, id);
    if i < n {
      CountTwice(init, i);
      assert init[i] == decoded[i];
    }
  }

  /** The row's UUID and its pruned configuration. */
  ghost predicate Decodes(secret: Secrecy, d: Decoded, row: Row) {
    Identified(row) && d == Decoded(Uuid(row), PrunedFields(secret, row.fields))
  }

  ghost predicate AllDecode(secret: Secrecy, decoded: seq<Decoded>, rows: seq<Row>) {
    |decoded| == |rows| && forall i :: 0 <= i < |rows| ==> Decodes(secret, decoded[i], rows[i])
  }

  method DecodeRow(secret: Secrecy, row: Row) returns (r: Result<Decoded, RowError>)
    ensures r.Ok? <==> Identified(row)
    ensures r.Ok? ==> Decodes(secret, r.value, row)
    ensures r.Err? ==> r.error == if row.Config? then NoUuid else NotDecoded
  {
    if row.Undecodable? {
      return Err(NotDecoded);
    }
    if !Filled(row.fields, UUID) {
      return Err(NoUuid);
    }
    var config := RedactFields(secret, Object(row.fields));
    return Ok(Decoded(row.fields[UUID].text, config.fields));
  }

  ghost predicate Counts(counts: map<string, nat>, decoded: seq<Decoded>) {
    forall id :: Count(decoded, id) == if id in counts then counts[id] else 0
  }

  lemma CountsMore(counts: map<string, nat>, decoded: seq<Decoded>, d: Decoded)
    requires Counts(counts, decoded)
    ensures Counts(counts[d.id := (if d.id in counts then counts[d.id] else 0) + 1], decoded + [d])
  {
    assert (decoded + [d])[..|decoded|] == decoded;
  }

  /** The first row that does not decode or has no UUID, and its error. */
  ghost predicate FirstFault(rows: seq<Row>, i: nat, error: RowError) {
    && i < |rows| && !Identified(rows[i]) && (forall j :: 0 <= j < i ==> Identified(rows[j]))
    && error == if rows[i].Config? then NoUuid else NotDecoded
  }

  /** The first filter rule that shares its UUID and has no sort order, and its error. */
  ghost predicate FirstUndiscerned(kind: string, rows: seq<Row>, i: nat, error: RowError)
    requires AllIdentified(rows)
  {
    && i < |rows| && !Discerned(kind, rows, i) && (forall j :: 0 <= j < i ==> Discerned(kind, rows, j))
    && error == NoSortOrder(Uuid(rows[i]))
  }

  /** The first faulty row stops the whole list. */
  method DecodeRows(secret: Secrecy, rows: seq<Row>) returns (error: Option<RowError>, decoded: seq<Decoded>, counts: map<string, nat>)
    ensures error.Some? ==> exists i :: FirstFault(rows, i, error.value)
    ensures error.None? ==> AllDecode(secret, decoded, rows) && Counts(counts, decoded)
  {
    error, decoded, counts := None, [], map[];
    var i := 0;
    while i < |rows|
      invariant 0 <= i <= |rows| && |decoded| == i
      invariant forall j :: 0 <= j < i ==> Decodes(secret, decoded[j], rows[j])
      invariant Counts(counts, decoded)
    {
      var r := DecodeRow(secret, rows[i]);
      if r.Err? {
        assert FirstFault(rows, i, r.error);
        return Some(r.error), decoded, counts;
      }
      CountsMore(counts, decoded, r.value);
      counts := counts[r.value.id := (if r.value.id in counts then counts[r.value.id] else 0) + 1];
      decoded := decoded + [r.value];
      i := i + 1;
    }
  }

  lemma SameRepeats(secret: Secrecy, decoded: seq<Decoded>, rows: seq<Row>, i: nat)
    requires AllDecode(secret, decoded, rows) && i < |rows|
    ensures AllIdentified(rows)
    ensures Count(decoded, decoded[i].id) > 1 <==> Repeated(rows, i)
  {
    assert forall j :: 0 <= j < |rows| ==> Decodes(secret, decoded[j], rows[j]);
    CountTwice(decoded, i);
  }

  lemma SortOrderSurvives(secret: Secrecy, fields: map<string, Value>)
    requires !secret(SORT_ORDER)
    ensures var pruned := PrunedFields(secret, fields);
      && (Filled(pruned, SORT_ORDER) <==> Filled(fields, SORT_ORDER))
      && (Filled(fields, SORT_ORDER) ==> pruned[SORT_ORDER] == fields[SORT_ORDER])
  {
    DownPruned(secret, Object(fields), Field(SORT_ORDER));
    var before, after := Down(Object(fields), Field(SORT_ORDER)), Down(Pruned(secret, Object(fields)), Field(SORT_ORDER));
    assert before.None? <==> after.None?;
    assert before.Some? ==> after.value == Pruned(secret, before.value);
  }

  ghost predicate Built(secret: Secrecy, kind: string, rows: seq<Row>, i: nat, e: Entity)
    requires i < |rows| && AllIdentified(rows)
  {
    Discerned(kind, rows, i) && e == Entity(kind, IdOf(kind, rows, i), PrunedFields(secret, rows[i].fields))
  }

  /** The text under this name, if it is more than white space. */
  predicate HasText(row: Row, name: string, text: string) {
    row.Config? && name in row.fields && row.fields[name] == Text(text) && exists i :: 0 <= i < |text| && !Space(text[i])
  }

  /** The identity of row i is its UUID; for a filter rule whose UUID another row has too, a
      colon and its sort order follow. */
  ghost predicate IdentifiedBy(kind: string, rows: seq<Row>, i: nat, id: string)
    requires i < |rows|
  {
    exists uuid ::
      && HasText(rows[i], "uuid", uuid)
      && if kind == "filter_rule" && (exists j :: 0 <= j < |rows| && j != i && HasText(rows[j], "uuid", uuid))
         then exists order :: HasText(rows[i], "sort_order", order) && id == uuid + ":" + order
         else id == uuid
  }

  lemma BuiltIsIdentified(secret: Secrecy, kind: string, rows: seq<Row>, i: nat, e: Entity)
    requires i < |rows| && AllIdentified(rows) && Built(secret, kind, rows, i, e)
    ensures e.kind == kind && IdentifiedBy(kind, rows, i, e.id)
  {
    var uuid := Uuid(rows[i]);
    forall j | 0 <= j < |rows| ensures HasText(rows[j], "uuid", uuid) <==> Uuid(rows[j]) == uuid {
      assert Identified(rows[j]);
    }
    assert Repeated(rows, i) <==> exists j :: 0 <= j < |rows| && j != i && HasText(rows[j], "uuid", uuid);
    if kind == FILTER_RULE && Repeated(rows, i) {
      assert HasText(rows[i], "sort_order", SortOrder(rows[i]));
    }
  }

  /** The entity of one decoded row; a filter rule that shares its UUID needs a sort order
      besides. */
  method Identify(secret: Secrecy, kind: string, decoded: seq<Decoded>, counts: map<string, nat>, i: nat, ghost rows: seq<Row>)
    returns (r: Result<Entity, RowError>)
    requires !secret(SORT_ORDER) && i < |rows|
    requires AllDecode(secret, decoded, rows) && Counts(counts, decoded)
    ensures AllIdentified(rows) && (r.Ok? <==> Discerned(kind, rows, i))
    ensures r.Ok? ==> Built(secret, kind, rows, i, r.value)
    ensures r.Err? ==> r.error == NoSortOrder(Uuid(rows[i]))
  {
    SameRepeats(secret, decoded, rows, i);
    SortOrderSurvives(secret, rows[i].fields);
    assert Decodes(secret, decoded[i], rows[i]);
    var id, config := decoded[i].id, decoded[i].config;
    if kind == FILTER_RULE && id in counts && counts[id] > 1 {
      if !Filled(config, SORT_ORDER) {
        return Err(NoSortOrder(id));
      }
      id := id + [DELIMITER] + config[SORT_ORDER].text;
    }
    return Ok(Entity(kind, id, config));
  }

  /** The entities of a kind. They are there exactly when every row decodes, every row has
      a UUID, and every filter rule that shares its UUID has a sort order; then there is
      one for each row, in order, under its identity and with its pruned configuration. */
  method SnapshotRows(kind: string, rows: seq<Row>) returns (r: Result<seq<Entity>, RowError>)
    ensures r.Ok? <==> Acceptable(kind, rows)
    ensures r.Ok? ==> |r.value| == |rows| && forall i :: 0 <= i < |rows| ==> Built(SensitiveKey, kind, rows, i, r.value[i])
    ensures r.Ok? ==> forall i :: 0 <= i < |rows| ==> r.value[i].kind == kind && IdentifiedBy(kind, rows, i, r.value[i].id)
    ensures !AllIdentified(rows) ==> exists i :: FirstFault(rows, i, r.error)
    ensures AllIdentified(rows) && r.Err? ==> exists i :: FirstUndiscerned(kind, rows, i, r.error)
  {
    SortOrderIsKept(SORT_ORDER);
    r := BuildRows(SensitiveKey, kind, rows);
    if r.Ok? {
      forall i | 0 <= i < |rows| ensures r.value[i].kind == kind && IdentifiedBy(kind, rows, i, r.value[i].id) {
        BuiltIsIdentified(SensitiveKey, kind, rows, i, r.value[i]);
      }
    }
  }

  method BuildRows(secret: Secrecy, kind: string, rows: seq<Row>) returns (r: Result<seq<Entity>, RowError>)
    requires !secret(SORT_ORDER)
    ensures r.Ok? <==> Acceptable(kind, rows)
    ensures r.Ok? ==> |r.value| == |rows| && forall i :: 0 <= i < |rows| ==> Built(secret, kind, rows, i, r.value[i])
    ensures !AllIdentified(rows) ==> exists i :: FirstFault(rows, i, r.error)
    ensures AllIdentified(rows) && r.Err? ==> exists i :: FirstUndiscerned(kind, rows, i, r.error)
  {
    var error, decoded, counts := DecodeRows(secret, rows);
    if error.Some? {
      return Err(error.value);
    }
    var entities: seq<Entity> := [];
    assert AllIdentified(rows) by { AllIdentifiedByDecoding(secret, decoded, rows); }
    var i := 0;
    while i < |rows|
      invariant 0 <= i <= |rows| && |entities| == i
      invariant forall j :: 0 <= j < i ==> Built(secret, kind, rows, j, entities[j])
    {
      var entity := Identify(secret, kind, decoded, counts, i, rows);
      if entity.Err? {
        FirstMissing(secret, kind, rows, entities, i);
        return Err(entity.error);
      }
      entities := entities + [entity.value];
      i := i + 1;
    }
    forall j | 0 <= j < |rows| ensures Discerned(kind, rows, j) {
      assert Built(secret, kind, rows, j, entities[j]);
    }
    return Ok(entities);
  }

  lemma FirstMissing(secret: Secrecy, kind: string, rows: seq<Row>, entities: seq<Entity>, i: nat)
    requires AllIdentified(rows) && |entities| == i < |rows| && !Discerned(kind, rows, i)
    requires forall j :: 0 <= j < i ==> Built(secret, kind, rows, j, entities[j])
    ensures FirstUndiscerned(kind, rows, i, NoSortOrder(Uuid(rows[i])))
  {
    forall j | 0 <= j < i ensures Discerned(kind, rows, j) {
      assert Built(secret, kind, rows, j, entities[j]);
    }
  }

  lemma AllIdentifiedByDecoding(secret: Secrecy, decoded: seq<Decoded>, rows: seq<Row>)
    requires AllDecode(secret, decoded, rows)
    ensures AllIdentified(rows)
  {
    assert forall j :: 0 <= j < |rows| ==> Decodes(secret, decoded[j], rows[j]);
  }
}
