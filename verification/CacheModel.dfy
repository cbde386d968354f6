/** The response cache as a value: what each operation makes of it, the invariant every
    operation keeps, and which entries a new one pushes out. Class ResponseCache in
    module CacheStore is proved to perform these operations. */
module CacheModel {
  import opened Integers
  import opened Sequences
  import opened Wrappers

  const MAX_ENTRY_BYTES: nat := 4 * 1024 * 1024
  const MAX_BYTES: nat := 32 * 1024 * 1024

  /** An answer held until expiresAt. Times are nanoseconds. */
  datatype Entry = Entry(status: int, body: string, storedAt: int, expiresAt: int, cost: nat)

  type AdmitRule = string -> bool
  type BodyTtlRule = (string, int) -> int

  /** `order` lists the paths held, most recently used first. */
  datatype Cache = Cache(
    ttls: map<string, int>,
    absentTtls: map<string, int>,
    admit: map<string, AdmitRule>,
    bodyTtls: map<string, BodyTtlRule>,
    entries: map<string, Entry>,
    order: seq<string>,
    bytes: int)

  function Empty(): Cache { Cache(map[], map[], map[], map[], map[], [], 0) }

  predicate IsSuccess(status: int) { 200 <= status < 300 }

  // ----- Operations -----

  function Without(order: seq<string>, path: string): seq<string> {
    if order == [] then []
    else if order[0] == path then Without(order[1..], path)
    else [order[0]] + Without(order[1..], path)
  }

  function Remove(c: Cache, path: string): Cache {
    if path !in c.entries then c
    else c.(entries := c.entries - {path}, order := Without(c.order, path), bytes := c.bytes - c.entries[path].cost)
  }

  function SetTtl(c: Cache, path: string, ttl: int): Cache {
    if ttl <= 0 then Remove(c.(ttls := c.ttls - {path}), path) else c.(ttls := c.ttls[path := ttl])
  }

  function SetAbsentTtl(c: Cache, path: string, ttl: int): Cache {
    if ttl <= 0 then Remove(c.(absentTtls := c.absentTtls - {path}), path)
    else c.(absentTtls := c.absentTtls[path := ttl])
  }

  function SetAdmission(c: Cache, path: string, rule: Option<AdmitRule>): Cache {
    c.(admit := if rule.None? then c.admit - {path} else c.admit[path := rule.value])
  }

  function SetBodyTtl(c: Cache, path: string, rule: Option<BodyTtlRule>): Cache {
    c.(bodyTtls := if rule.None? then c.bodyTtls - {path} else c.bodyTtls[path := rule.value])
  }

  function Get(c: Cache, path: string, now: int): (Cache, Option<Entry>) {
    if path !in c.entries then (c, None)
    else if now >= c.entries[path].expiresAt then (Remove(c, path), None)
    else (c.(order := [path] + Without(c.order, path)), Some(c.entries[path]))
  }

  /** The TTL configured for an answer with this status. */
  function ConfiguredTtl(c: Cache, path: string, status: int): Option<int> {
    if IsSuccess(status) then (if path in c.ttls then Some(c.ttls[path]) else None)
    else if status == 404 then (if path in c.absentTtls then Some(c.absentTtls[path]) else None)
    else None
  }

  /** The TTL an answer is stored under; None when it is refused. */
  function StoreTtl(c: Cache, path: string, status: int, body: string): Option<int> {
    var ttl := ConfiguredTtl(c, path, status);
    if ttl.None? || |body| > MAX_ENTRY_BYTES then None
    else if !IsSuccess(status) then ttl
    else if path in c.admit && !c.admit[path](body) then None
    else if path !in c.bodyTtls then ttl else
    var capped := Min(ttl.value, c.bodyTtls[path](body, ttl.value));
    if capped <= 0 then None else Some(capped)
  }

  /** Least recently used entries dropped until `need` more bytes fit; None when nothing
      is left to drop. */
  function Evict(c: Cache, need: nat): (r: Option<Cache>)
    decreases |c.order|
  {
    if c.bytes + need <= MAX_BYTES then Some(c)
    else if c.order == [] then None
    else
      var back := c.order[|c.order| - 1];
      if |Remove(c, back).order| < |c.order| then Evict(Remove(c, back), need) else None
  }

  function Put(c: Cache, path: string, status: int, body: string, now: int): (Cache, bool) {
    var ttl := StoreTtl(c, path, status, body);
    if ttl.None? then (c, false) else
    var room := Evict(Remove(c, path), |body|);
    if room.None? then (Remove(c, path), false)
    else (Insert(room.value, path, Entry(status, body, now, now + ttl.value, |body|)), true)
  }

  function Insert(c: Cache, path: string, e: Entry): Cache {
    c.(entries := c.entries[path := e], order := [path] + c.order, bytes := c.bytes + e.cost)
  }

  // ----- The invariant -----

  predicate Held(order: seq<string>, entries: map<string, Entry>) {
    forall p :: p in order ==> p in entries
  }

  function Cost(order: seq<string>, entries: map<string, Entry>): nat
    requires Held(order, entries)
  {
    if order == [] then 0 else
    assert order[0] in order;
    entries[order[0]].cost + Cost(order[1..], entries)
  }

  /** The recency list holds each path of the map once, the counter is the sum of the
      costs, and both limits hold. */
  ghost predicate Valid(c: Cache) {
    && NoRepeats(c.order)
    && Held(c.order, c.entries)
    && (forall p :: p in c.entries ==> p in c.order)
    && c.bytes == Cost(c.order, c.entries) <= MAX_BYTES
    && (forall p :: p in c.entries ==> c.entries[p].cost == |c.entries[p].body| <= MAX_ENTRY_BYTES)
    && (forall p :: p in c.ttls ==> c.ttls[p] > 0)
    && (forall p :: p in c.absentTtls ==> c.absentTtls[p] > 0)
  }

  // ----- Lists and sums -----

  lemma {:induction false} WithoutMembers(order: seq<string>, path: string)
    ensures forall p :: p in Without(order, path) <==> p in order && p != path
    ensures |Without(order, path)| <= |order|
    ensures path in order ==> |Without(order, path)| < |order|
    ensures path !in order ==> Without(order, path) == order
  {
    if order == [] {
    } else {
      WithoutMembers(order[1..], path);
      assert order == [order[0]] + order[1..];
    }
  }

  lemma {:induction false} WithoutRepeats(order: seq<string>, path: string)
    requires NoRepeats(order)
    ensures NoRepeats(Without(order, path))
  {
    if order == [] {
    } else {
      WithoutRepeats(order[1..], path);
      WithoutMembers(order[1..], path);
      if order[0] != path {
        var rest := Without(order[1..], path);
        assert order[0] !in order[1..];
        assert order[0] !in rest;
      }
    }
  }

  lemma {:induction false} CostSame(order: seq<string>, entries: map<string, Entry>, other: map<string, Entry>)
    requires Held(order, entries) && Held(order, other)
    requires forall p :: p in order ==> entries[p].cost == other[p].cost
    ensures Cost(order, entries) == Cost(order, other)
  {
    if order == [] {
    } else {
      assert order[0] in order;
      CostSame(order[1..], entries, other);
    }
  }

  lemma {:induction false} CostWithout(order: seq<string>, entries: map<string, Entry>, path: string)
    requires NoRepeats(order) && Held(order, entries) && path in order
    ensures Held(Without(order, path), entries - {path})
    ensures Cost(Without(order, path), entries - {path}) == Cost(order, entries) - entries[path].cost
  {
    WithoutMembers(order, path);
    var less := entries - {path};
    if order[0] == path {
      assert path !in order[1..];
      WithoutMembers(order[1..], path);
      CostSame(order[1..], entries, less);
    } else {
      CostWithout(order[1..], entries, path);
      var rest := Without(order[1..], path);
      assert ([order[0]] + rest)[1..] == rest;
    }
  }

  lemma {:induction false} CostPrefix(order: seq<string>, entries: map<string, Entry>, k: nat)
    requires Held(order, entries) && k <= |order|
    ensures Held(order[..k], entries) && Cost(order[..k], entries) <= Cost(order, entries)
  {
    if k == 0 {
    } else {
      assert order[..k][1..] == order[1..][..k - 1];
      CostPrefix(order[1..], entries, k - 1);
    }
  }

  // ----- Every operation keeps the invariant -----

  lemma RemoveValid(c: Cache, path: string)
    requires Valid(c)
    ensures Valid(Remove(c, path))
    ensures path in c.entries ==> |Remove(c, path).order| < |c.order|
    ensures Remove(c, path).entries == c.entries - {path}
  {
    if path in c.entries {
      WithoutMembers(c.order, path);
      WithoutRepeats(c.order, path);
      CostWithout(c.order, c.entries, path);
    }
  }

  lemma {:induction false} WithoutLast(order: seq<string>)
    requires order != [] && NoRepeats(order)
    ensures Without(order, order[|order| - 1]) == order[..|order| - 1]
  {
    if |order| > 1 {
      WithoutLast(order[1..]);
      assert order[1..][|order[1..]| - 1] == order[|order| - 1];
      assert order[..|order| - 1] == [order[0]] + order[1..][..|order| - 2];
    }
  }

  /** c with only its k most recently used entries. */
  function Keep(c: Cache, k: nat): Cache
    requires k <= |c.order| && Held(c.order, c.entries)
  {
    HeldPrefix(c.order, c.entries, k);
    c.(order := c.order[..k],
       entries := map p | p in c.entries && p in c.order[..k] :: c.entries[p],
       bytes := Cost(c.order[..k], c.entries))
  }

  lemma HeldPrefix(order: seq<string>, entries: map<string, Entry>, k: nat)
    requires k <= |order| && Held(order, entries)
    ensures Held(order[..k], entries)
  {
  }

  lemma RemoveBack(c: Cache)
    requires Valid(c) && c.order != []
    ensures Remove(c, c.order[|c.order| - 1]) == Keep(c, |c.order| - 1)
  {
    var n := |c.order| - 1;
    var back := c.order[n];
    assert back in c.order;
    WithoutLast(c.order);
    CostWithout(c.order, c.entries, back);
    var kept := Keep(c, n);
    assert kept.entries == c.entries - {back};
    CostSame(c.order[..n], c.entries, c.entries - {back});
  }

  lemma KeepKeep(c: Cache, k: nat, n: nat)
    requires Valid(c) && k <= n <= |c.order|
    ensures Held(c.order[..n], Keep(c, n).entries) && Keep(Keep(c, n), k) == Keep(c, k)
  {
    var kept := Keep(c, n);
    assert c.order[..n][..k] == c.order[..k];
    assert Keep(kept, k).entries == Keep(c, k).entries;
    CostSame(c.order[..k], kept.entries, c.entries);
  }

  /** Keeping the k most recently used entries, and no more, leaves room for `need`
      more bytes. */
  predicate LargestFit(c: Cache, need: nat, k: nat)
    requires k <= |c.order| && Held(c.order, c.entries)
  {
    && PrefixCost(c, k) + need <= MAX_BYTES
    && (k < |c.order| ==> PrefixCost(c, k + 1) + need > MAX_BYTES)
  }

  function PrefixCost(c: Cache, k: nat): nat
    requires k <= |c.order| && Held(c.order, c.entries)
  {
    HeldPrefix(c.order, c.entries, k);
    Cost(c.order[..k], c.entries)
  }

  lemma PrefixCostKeep(c: Cache, n: nat, k: nat)
    requires Valid(c) && k <= n <= |c.order|
    ensures Held(c.order[..n], Keep(c, n).entries)
    ensures PrefixCost(Keep(c, n), k) == PrefixCost(c, k)
  {
    assert c.order[..n][..k] == c.order[..k];
    CostSame(c.order[..k], Keep(c, n).entries, c.entries);
  }

  lemma PrefixCostAll(c: Cache)
    requires Valid(c)
    ensures PrefixCost(c, |c.order|) == c.bytes && Keep(c, |c.order|) == c
  {
    assert c.order[..|c.order|] == c.order;
    assert Keep(c, |c.order|).entries == c.entries;
  }

  /** A fit among the n most recently used is a fit among all, if n + 1 are too many. */
  lemma FitWidens(c: Cache, need: nat, n: nat, k: nat)
    requires Valid(c) && k <= n < |c.order| && PrefixCost(c, n + 1) + need > MAX_BYTES
    requires Held(c.order[..n], Keep(c, n).entries) && LargestFit(Keep(c, n), need, k)
    ensures LargestFit(c, need, k)
  {
    PrefixCostKeep(c, n, k);
    if k < n {
      PrefixCostKeep(c, n, k + 1);
    }
  }

  /** Eviction drops exactly the shortest least recently used suffix that makes room,
      and for an entry of admissible size there is always one. */
  lemma {:induction false} EvictKeepsLargestFit(c: Cache, need: nat) returns (k: nat)
    requires Valid(c) && need <= MAX_BYTES
    ensures k <= |c.order| && LargestFit(c, need, k)
    ensures Evict(c, need) == Some(Keep(c, k))
    ensures Valid(Keep(c, k)) && Keep(c, k).bytes + need <= MAX_BYTES
    decreases |c.order|
  {
    PrefixCostAll(c);
    if c.bytes + need <= MAX_BYTES {
      k := |c.order|;
    } else {
      var n := |c.order| - 1;
      assert c.order[n] in c.order;
      RemoveBack(c);
      RemoveValid(c, c.order[n]);
      k := EvictKeepsLargestFit(Keep(c, n), need);
      KeepKeep(c, k, n);
      FitWidens(c, need, n, k);
    }
  }

  lemma InsertValid(c: Cache, path: string, e: Entry)
    requires Valid(c) && path !in c.entries
    requires e.cost == |e.body| <= MAX_ENTRY_BYTES && c.bytes + e.cost <= MAX_BYTES
    ensures Valid(Insert(c, path, e))
  {
    assert path !in c.order;
    CostInsert(c.order, c.entries, path, e);
    ListInsert(c.order, path);
  }

  lemma CostInsert(order: seq<string>, entries: map<string, Entry>, path: string, e: Entry)
    requires Held(order, entries) && path !in order
    ensures Held([path] + order, entries[path := e])
    ensures Cost([path] + order, entries[path := e]) == e.cost + Cost(order, entries)
  {
    CostSame(order, entries, entries[path := e]);
    assert ([path] + order)[1..] == order;
  }

  lemma ListInsert(order: seq<string>, path: string)
    requires NoRepeats(order) && path !in order
    ensures NoRepeats([path] + order)
    ensures forall p :: p in [path] + order <==> p == path || p in order
  {
  }

  /** A hit moves its path to the front. */
  lemma HitIsReinserted(c: Cache, path: string, now: int)
    requires path in c.entries && now < c.entries[path].expiresAt
    ensures Get(c, path, now).0 == Insert(Remove(c, path), path, c.entries[path])
  {
    assert (c.entries - {path})[path := c.entries[path]] == c.entries;
  }

  lemma GetValid(c: Cache, path: string, now: int)
    requires Valid(c)
    ensures Valid(Get(c, path, now).0)
  {
    RemoveValid(c, path);
    if path in c.entries && now < c.entries[path].expiresAt {
      HitIsReinserted(c, path, now);
      InsertValid(Remove(c, path), path, c.entries[path]);
    }
  }

  // ----- Which answers are stored, and for how long -----

  /** An answer may be stored: it has at most 4 MiB, and is a success of a path with a TTL,
      which the path's rules, if any, admit and grant some lifetime, or the 404 of a path with
      a TTL for that. */
  predicate Admits(c: Cache, path: string, status: int, body: string) {
    && |body| <= 4 * 1024 * 1024
    && (|| (&& 200 <= status < 300 && path in c.ttls
            && (path in c.admit ==> c.admit[path](body))
            && (path in c.bodyTtls ==> c.bodyTtls[path](body, c.ttls[path]) > 0))
        || (status == 404 && path in c.absentTtls))
  }

  /** For how long: a 404 for its own TTL, a success for the TTL of its path or, if that is
      less, for what the path's rule makes of it. */
  function LifeOf(c: Cache, path: string, status: int, body: string): (life: int)
    requires Admits(c, path, status, body)
  {
    if status == 404 then c.absentTtls[path]
    else if path in c.bodyTtls && c.bodyTtls[path](body, c.ttls[path]) < c.ttls[path] then
      c.bodyTtls[path](body, c.ttls[path])
    else c.ttls[path]
  }

  lemma StoreTtlIsLife(c: Cache, path: string, status: int, body: string)
    requires Valid(c)
    ensures StoreTtl(c, path, status, body)
         == if Admits(c, path, status, body) then Some(LifeOf(c, path, status, body)) else None
    ensures Admits(c, path, status, body) ==> LifeOf(c, path, status, body) > 0
  {
  }

  /** The entry an admitted answer becomes. */
  function NewEntry(c: Cache, path: string, status: int, body: string, now: int): Entry
    requires Admits(c, path, status, body)
  {
    Entry(status, body, now, now + LifeOf(c, path, status, body), |body|)
  }

  /** A refused answer changes nothing. */
  lemma PutRefused(c: Cache, path: string, status: int, body: string, now: int)
    requires Valid(c) && !Admits(c, path, status, body)
    ensures Put(c, path, status, body, now) == (c, false)
  {
    StoreTtlIsLife(c, path, status, body);
  }

  /** An admitted answer goes in front of the most recently used others that still fit,
      and no more of them go than must; so storing never fails for want of entries to
      evict. */
  lemma PutStores(c: Cache, path: string, status: int, body: string, now: int) returns (k: nat)
    requires Valid(c) && Admits(c, path, status, body)
    ensures Valid(Remove(c, path)) && k <= |Remove(c, path).order| && LargestFit(Remove(c, path), |body|, k)
    ensures Put(c, path, status, body, now)
         == (Insert(Keep(Remove(c, path), k), path, NewEntry(c, path, status, body, now)), true)
    ensures Valid(Put(c, path, status, body, now).0)
  {
    var rest := Remove(c, path);
    StoreTtlIsLife(c, path, status, body);
    RemoveValid(c, path);
    k := EvictKeepsLargestFit(rest, |body|);
    var kept := Keep(rest, k);
    PutInserts(c, path, status, body, now, kept);
    assert path !in kept.entries;
    InsertValid(kept, path, NewEntry(c, path, status, body, now));
  }

  lemma PutInserts(c: Cache, path: string, status: int, body: string, now: int, kept: Cache)
    requires Admits(c, path, status, body) && StoreTtl(c, path, status, body) == Some(LifeOf(c, path, status, body))
    requires Evict(Remove(c, path), |body|) == Some(kept)
    ensures Put(c, path, status, body, now) == (Insert(kept, path, NewEntry(c, path, status, body, now)), true)
  {
  }

  /** What is stored, exactly: an answer that is admitted, under its own status and body,
      until its lifetime is over; any other changes nothing. */
  lemma PutIsExact(c: Cache, path: string, status: int, body: string, now: int)
    requires Valid(c)
    ensures Valid(Put(c, path, status, body, now).0)
    ensures Put(c, path, status, body, now).1 <==> Admits(c, path, status, body)
    ensures !Admits(c, path, status, body) ==> Put(c, path, status, body, now).0 == c
    ensures Admits(c, path, status, body) ==>
      var after := Put(c, path, status, body, now).0;
      path in after.entries && after.entries[path] == Entry(status, body, now, now + LifeOf(c, path, status, body), |body|)
  {
    if Admits(c, path, status, body) {
      var _ := PutStores(c, path, status, body, now);
    } else {
      PutRefused(c, path, status, body, now);
    }
  }
}
