/** Whole runs of cache operations, from an empty cache, under any settings. */
module CacheRuns {
  import opened CacheModel
  import opened Wrappers

  datatype Op =
    | TtlSet(path: string, ttl: int)
    | AbsentTtlSet(path: string, ttl: int)
    | AdmissionSet(path: string, admits: Option<AdmitRule>)
    | BodyTtlSet(path: string, caps: Option<BodyTtlRule>)
    | Gotten(path: string, now: int)
    | Offered(path: string, status: int, body: string, now: int)

  function Apply(c: Cache, op: Op): Cache {
    match op
    case TtlSet(path, ttl) => SetTtl(c, path, ttl)
    case AbsentTtlSet(path, ttl) => SetAbsentTtl(c, path, ttl)
    case AdmissionSet(path, rule) => SetAdmission(c, path, rule)
    case BodyTtlSet(path, rule) => SetBodyTtl(c, path, rule)
    case Gotten(path, now) => Get(c, path, now).0
    case Offered(path, status, body, now) => Put(c, path, status, body, now).0
  }

  /** The cache after a run. */
  function After(ops: seq<Op>): Cache {
    if ops == [] then Empty() else Apply(After(ops[..|ops| - 1]), ops[|ops| - 1])
  }

  lemma SetTtlValid(c: Cache, path: string, ttl: int)
    requires Valid(c)
    ensures Valid(SetTtl(c, path, ttl))
  {
    if ttl <= 0 {
      RemoveValid(c.(ttls := c.ttls - {path}), path);
    }
  }

  lemma SetAbsentTtlValid(c: Cache, path: string, ttl: int)
    requires Valid(c)
    ensures Valid(SetAbsentTtl(c, path, ttl))
  {
    if ttl <= 0 {
      RemoveValid(c.(absentTtls := c.absentTtls - {path}), path);
    }
  }

  lemma ApplyValid(c: Cache, op: Op)
    requires Valid(c)
    ensures Valid(Apply(c, op))
  {
    match op
    case TtlSet(path, ttl) => SetTtlValid(c, path, ttl);
    case AbsentTtlSet(path, ttl) => SetAbsentTtlValid(c, path, ttl);
    case AdmissionSet(_, _) =>
    case BodyTtlSet(_, _) =>
    case Gotten(path, now) => GetValid(c, path, now);
    case Offered(path, status, body, now) => PutIsExact(c, path, status, body, now);
  }

  /** After every run: list and map agree, the counter is the sum of the costs, and
      neither the total nor any entry is over its limit. */
  lemma {:induction false} EveryRunIsValid(ops: seq<Op>)
    ensures Valid(After(ops))
  {
    if ops == [] {
    } else {
      EveryRunIsValid(ops[..|ops| - 1]);
      ApplyValid(After(ops[..|ops| - 1]), ops[|ops| - 1]);
    }
  }

  // ----- What a hit returns -----

  /** Does this operation store an answer for the path? */
  predicate Stores(c: Cache, op: Op, path: string) {
    op.Offered? && op.path == path && Admits(c, path, op.status, op.body)
  }

  /** The TTL set for answers of this kind. */
  function TtlFor(c: Cache, path: string, status: int): int
    requires if status == 404 then path in c.absentTtls else path in c.ttls
  {
    if status == 404 then c.absentTtls[path] else c.ttls[path]
  }

  /** The answer last stored for a path, when, the TTL then configured for it, and the
      lifetime a rule made of that TTL. */
  datatype Record = Record(status: int, body: string, at: int, ttl: int, life: int)

  function LastStored(ops: seq<Op>, path: string): Option<Record> {
    if ops == [] then None else
    var before := ops[..|ops| - 1];
    var op := ops[|ops| - 1];
    if Stores(After(before), op, path) then
      Some(Record(op.status, op.body, op.now, TtlFor(After(before), path, op.status),
        LifeOf(After(before), path, op.status, op.body)))
    else LastStored(before, path)
  }

  /** The clock never runs backwards, up to `now`. */
  predicate Clocked(ops: seq<Op>, now: int) {
    if ops == [] then true else
    var op := ops[|ops| - 1];
    if op.Gotten? || op.Offered? then op.now <= now && Clocked(ops[..|ops| - 1], op.now)
    else Clocked(ops[..|ops| - 1], now)
  }

  /** An entry held after an operation was held before it, unchanged, unless this very
      operation stored it. */
  lemma EntryOrigin(c: Cache, op: Op, path: string)
    requires Valid(c) && path in Apply(c, op).entries
    ensures Stores(c, op, path) ==> Apply(c, op).entries[path] == NewEntry(c, path, op.status, op.body, op.now)
    ensures !Stores(c, op, path) ==> path in c.entries && Apply(c, op).entries[path] == c.entries[path]
  {
    if !op.Offered? {
      QuietOrigin(c, op, path);
    } else if Admits(c, op.path, op.status, op.body) {
      PutOrigin(c, op.path, op.status, op.body, op.now, path);
    } else {
      PutRefused(c, op.path, op.status, op.body, op.now);
    }
  }

  lemma QuietOrigin(c: Cache, op: Op, path: string)
    requires !op.Offered? && path in Apply(c, op).entries
    ensures path in c.entries && Apply(c, op).entries[path] == c.entries[path]
  {
    DroppedEntries(c, op);
  }

  lemma PutOrigin(c: Cache, path: string, status: int, body: string, now: int, p: string)
    requires Valid(c) && Admits(c, path, status, body) && p in Put(c, path, status, body, now).0.entries
    ensures var after := Put(c, path, status, body, now).0;
      if p == path then after.entries[p] == NewEntry(c, path, status, body, now)
      else p in c.entries && after.entries[p] == c.entries[p]
  {
    var k := PutStores(c, path, status, body, now);
    RemoveValid(c, path);
  }

  lemma {:induction false} EntriesAreRecorded(ops: seq<Op>, path: string, now: int)
    requires Clocked(ops, now) && path in After(ops).entries
    ensures LastStored(ops, path).Some?
    ensures var (e, r) := (After(ops).entries[path], LastStored(ops, path).value);
      && e.status == r.status && e.body == r.body && e.storedAt == r.at <= now
      && e.expiresAt == r.at + r.life && 0 < r.life <= r.ttl
  {
    if ops == [] {
    } else {
      var before, op := ops[..|ops| - 1], ops[|ops| - 1];
      EveryRunIsValid(before);
      EntryOrigin(After(before), op, path);
      if Stores(After(before), op, path) {
        StoreTtlIsLife(After(before), path, op.status, op.body);
      } else {
        EntriesAreRecorded(before, path, if op.Gotten? || op.Offered? then op.now else now);
      }
    }
  }

  /** In every run with a clock that never runs backwards: a path hits exactly when it is
      held and the lifetime of what was last stored for it is not over. The hit is that
      answer, and strictly younger than the TTL configured when it was stored, whatever a
      rule made of that TTL. */
  lemma HitIsLastStored(ops: seq<Op>, path: string, now: int)
    requires Clocked(ops, now)
    ensures var (hit, r) := (Get(After(ops), path, now).1, LastStored(ops, path));
      && (hit.Some? <==> path in After(ops).entries && r.Some? && now < r.value.at + r.value.life)
      && (hit.Some? ==>
           && hit.value.status == r.value.status && hit.value.body == r.value.body
           && r.value.at <= now < r.value.at + r.value.ttl)
  {
    if path in After(ops).entries {
      EntriesAreRecorded(ops, path, now);
    }
  }

  /** What was just stored is found until its lifetime is over. */
  lemma StoredIsFound(c: Cache, path: string, status: int, body: string, now: int, later: int)
    requires Valid(c) && Admits(c, path, status, body)
    ensures var hit := Get(Put(c, path, status, body, now).0, path, later).1;
      && (hit.Some? <==> later < now + LifeOf(c, path, status, body))
      && (hit.Some? ==> hit.value.status == status && hit.value.body == body)
  {
    var k := PutStores(c, path, status, body, now);
  }

  /** A response that is neither a success nor a 404, is too large, is turned down by its
      rule, or gets no lifetime from it, is not stored and disturbs nothing. */
  lemma RefusedPutChangesNothing(c: Cache, path: string, status: int, body: string, now: int)
    requires
      || (!IsSuccess(status) && status != 404)
      || |body| > MAX_ENTRY_BYTES
      || (IsSuccess(status) && path !in c.ttls)
      || (status == 404 && path !in c.absentTtls)
      || (IsSuccess(status) && path in c.admit && !c.admit[path](body))
      || (IsSuccess(status) && path in c.bodyTtls && path in c.ttls && c.bodyTtls[path](body, c.ttls[path]) <= 0)
    ensures Put(c, path, status, body, now) == (c, false)
  {
    assert StoreTtl(c, path, status, body).None?;
  }

  // ----- Opting in -----

  /** A TTL is set for answers of this kind: successes, or 404s. */
  predicate HasTtl(c: Cache, path: string, status: int) {
    if status == 404 then path in c.absentTtls else 200 <= status < 300 && path in c.ttls
  }

  /** Every entry has a TTL configured for its kind. */
  ghost predicate OptedIn(c: Cache) {
    forall p :: p in c.entries ==> HasTtl(c, p, c.entries[p].status)
  }

  /** In every run nothing is held for a path whose TTL was never set or was cleared. */
  lemma {:induction false} OnlyOptedInIsHeld(ops: seq<Op>)
    ensures OptedIn(After(ops))
  {
    if ops == [] {
    } else {
      var c, op := After(ops[..|ops| - 1]), ops[|ops| - 1];
      OnlyOptedInIsHeld(ops[..|ops| - 1]);
      EveryRunIsValid(ops[..|ops| - 1]);
      forall p | p in Apply(c, op).entries ensures HasTtl(Apply(c, op), p, Apply(c, op).entries[p].status) {
        EntryOrigin(c, op, p);
        SameTtls(c, op, p);
      }
    }
  }

  /** A TTL goes only together with the entry. */
  ghost predicate KeepsTtls(c: Cache, c': Cache, p: string) {
    p in c'.entries ==> (p in c.ttls ==> p in c'.ttls) && (p in c.absentTtls ==> p in c'.absentTtls)
  }

  lemma SameTtls(c: Cache, op: Op, p: string)
    requires Valid(c)
    ensures KeepsTtls(c, Apply(c, op), p)
  {
    match op
    case TtlSet(path, ttl) => SettingKeepsTtls(c, path, ttl, p);
    case AbsentTtlSet(path, ttl) => SettingKeepsTtls(c, path, ttl, p);
    case AdmissionSet(_, _) =>
    case BodyTtlSet(_, _) =>
    case Gotten(_, _) =>
    case Offered(path, status, body, now) => PutKeepsSettings(c, path, status, body, now);
  }

  /** Clearing either TTL of a path drops what is held for it. */
  lemma SettingKeepsTtls(c: Cache, path: string, ttl: int, p: string)
    ensures KeepsTtls(c, SetTtl(c, path, ttl), p) && KeepsTtls(c, SetAbsentTtl(c, path, ttl), p)
    ensures ttl <= 0 ==> path !in SetTtl(c, path, ttl).entries && path !in SetAbsentTtl(c, path, ttl).entries
  {
  }

  // ----- The settings -----

  function Setting<T>(m: map<string, T>, path: string): Option<T> {
    if path in m then Some(m[path]) else None
  }

  /** The last TTL set for a path, unless that cleared it. */
  function LastTtl(ops: seq<Op>, path: string): Option<int> {
    if ops == [] then None
    else if ops[|ops| - 1].TtlSet? && ops[|ops| - 1].path == path then
      if ops[|ops| - 1].ttl > 0 then Some(ops[|ops| - 1].ttl) else None
    else LastTtl(ops[..|ops| - 1], path)
  }

  function LastAbsentTtl(ops: seq<Op>, path: string): Option<int> {
    if ops == [] then None
    else if ops[|ops| - 1].AbsentTtlSet? && ops[|ops| - 1].path == path then
      if ops[|ops| - 1].ttl > 0 then Some(ops[|ops| - 1].ttl) else None
    else LastAbsentTtl(ops[..|ops| - 1], path)
  }

  function LastAdmission(ops: seq<Op>, path: string): Option<AdmitRule> {
    if ops == [] then None
    else if ops[|ops| - 1].AdmissionSet? && ops[|ops| - 1].path == path then ops[|ops| - 1].admits
    else LastAdmission(ops[..|ops| - 1], path)
  }

  function LastBodyTtl(ops: seq<Op>, path: string): Option<BodyTtlRule> {
    if ops == [] then None
    else if ops[|ops| - 1].BodyTtlSet? && ops[|ops| - 1].path == path then ops[|ops| - 1].caps
    else LastBodyTtl(ops[..|ops| - 1], path)
  }

  /** After every run, the settings of every path are the last ones made for it. */
  lemma {:induction false} SettingsAreTheLast(ops: seq<Op>, path: string)
    ensures Setting(After(ops).ttls, path) == LastTtl(ops, path)
    ensures Setting(After(ops).absentTtls, path) == LastAbsentTtl(ops, path)
    ensures Setting(After(ops).admit, path) == LastAdmission(ops, path)
    ensures Setting(After(ops).bodyTtls, path) == LastBodyTtl(ops, path)
  {
    if ops == [] {
    } else {
      var before, op := ops[..|ops| - 1], ops[|ops| - 1];
      SettingsAreTheLast(before, path);
      EveryRunIsValid(before);
      TtlAfter(After(before), op, path);
      AbsentTtlAfter(After(before), op, path);
      AdmissionAfter(After(before), op, path);
      BodyTtlAfter(After(before), op, path);
    }
  }

  /** An operation changes a setting only if it sets the one of this path. */
  lemma TtlAfter(c: Cache, op: Op, path: string)
    requires Valid(c)
    ensures Setting(Apply(c, op).ttls, path)
         == if op.TtlSet? && op.path == path then (if op.ttl > 0 then Some(op.ttl) else None) else Setting(c.ttls, path)
  {
    if op.Offered? {
      PutKeepsSettings(c, op.path, op.status, op.body, op.now);
    }
  }

  lemma AbsentTtlAfter(c: Cache, op: Op, path: string)
    requires Valid(c)
    ensures Setting(Apply(c, op).absentTtls, path)
         == if op.AbsentTtlSet? && op.path == path then (if op.ttl > 0 then Some(op.ttl) else None) else Setting(c.absentTtls, path)
  {
    if op.Offered? {
      PutKeepsSettings(c, op.path, op.status, op.body, op.now);
    }
  }

  lemma AdmissionAfter(c: Cache, op: Op, path: string)
    requires Valid(c)
    ensures Setting(Apply(c, op).admit, path) == if op.AdmissionSet? && op.path == path then op.admits else Setting(c.admit, path)
  {
    if op.Offered? {
      PutKeepsSettings(c, op.path, op.status, op.body, op.now);
    }
  }

  lemma BodyTtlAfter(c: Cache, op: Op, path: string)
    requires Valid(c)
    ensures Setting(Apply(c, op).bodyTtls, path) == if op.BodyTtlSet? && op.path == path then op.caps else Setting(c.bodyTtls, path)
  {
    if op.Offered? {
      PutKeepsSettings(c, op.path, op.status, op.body, op.now);
    }
  }

  lemma PutKeepsSettings(c: Cache, path: string, status: int, body: string, now: int)
    requires Valid(c)
    ensures var after := Put(c, path, status, body, now).0;
      after.ttls == c.ttls && after.absentTtls == c.absentTtls && after.admit == c.admit && after.bodyTtls == c.bodyTtls
  {
    if Admits(c, path, status, body) {
      var k := PutStores(c, path, status, body, now);
    } else {
      PutRefused(c, path, status, body, now);
    }
  }

  /** What is dropped other than to make room: the entry of a path when a TTL of it is cleared,
      or when it is looked up and its time is over. Nothing else is. */
  lemma DroppedEntries(c: Cache, op: Op)
    requires !op.Offered?
    ensures Apply(c, op).entries == c.entries - (
      if (op.TtlSet? || op.AbsentTtlSet?) && op.ttl <= 0 then {op.path}
      else if op.Gotten? && op.path in c.entries && op.now >= c.entries[op.path].expiresAt then {op.path}
      else {})
  {
    assert c.entries - {} == c.entries;
    match op
    case TtlSet(path, ttl) => RemovedEntries(c.(ttls := c.ttls - {path}), path);
    case AbsentTtlSet(path, ttl) => RemovedEntries(c.(absentTtls := c.absentTtls - {path}), path);
    case AdmissionSet(_, _) =>
    case BodyTtlSet(_, _) =>
    case Gotten(path, _) => RemovedEntries(c, path);
  }

  lemma RemovedEntries(c: Cache, path: string)
    ensures Remove(c, path).entries == c.entries - {path}
  {
  }
}
