/** The recency list of the cache is the order of use. */
module CacheRecency {
  import opened CacheModel
  import opened CacheRuns
  import opened Wrappers

  /** Does this operation use the path: store an answer for it, or hit? */
  predicate Uses(c: Cache, op: Op, path: string) {
    Stores(c, op, path) || (op.Gotten? && op.path == path && Get(c, path, op.now).1.Some?)
  }

  /** When a path was last used, counted in operations. */
  function LastUse(ops: seq<Op>, path: string): (n: nat)
    ensures n <= |ops|
  {
    if ops == [] then 0
    else if Uses(After(ops[..|ops| - 1]), ops[|ops| - 1], path) then |ops|
    else LastUse(ops[..|ops| - 1], path)
  }

  // ----- Lists ordered by a rank -----

  ghost predicate Descending(order: seq<string>, rank: string -> nat) {
    forall i, j :: 0 <= i < j < |order| ==> rank(order[i]) > rank(order[j])
  }

  lemma {:induction false} WithoutDescending(order: seq<string>, path: string, rank: string -> nat)
    requires Descending(order, rank)
    ensures Descending(Without(order, path), rank)
  {
    if order == [] {
    } else {
      WithoutDescending(order[1..], path, rank);
      WithoutMembers(order[1..], path);
      if order[0] != path {
        var rest := Without(order[1..], path);
        forall j | 0 <= j < |rest| ensures rank(order[0]) > rank(rest[j]) {
          assert rest[j] in order[1..];
        }
      }
    }
  }

  /** The list once a path is used: it in front, and of the others some first ones. */
  ghost predicate UsedFirst(order: seq<string>, path: string, order': seq<string>) {
    order' != [] && order'[0] == path && order'[1..] <= Without(order, path)
  }

  lemma UsedFirstDescending(order: seq<string>, path: string, order': seq<string>, rank: string -> nat, rank': string -> nat)
    requires Descending(order, rank) && UsedFirst(order, path, order')
    requires forall p :: p != path ==> rank'(p) == rank(p) < rank'(path)
    ensures Descending(order', rank')
  {
    var rest := order'[1..];
    WithoutDescending(order, path, rank);
    WithoutMembers(order, path);
    forall j | 0 <= j < |rest| ensures rest[j] != path {
      assert rest[j] == Without(order, path)[j];
    }
    forall i, j | 0 <= i < j < |order'| ensures rank'(order'[i]) > rank'(order'[j]) {
      assert order'[j] == rest[j - 1];
      if i > 0 {
        assert order'[i] == rest[i - 1];
      }
    }
  }

  // ----- One operation -----

  /** An operation that uses no path leaves the order of the others as it was. */
  lemma UnusedKeepsOrder(c: Cache, op: Op)
    requires Valid(c) && forall p :: !Uses(c, op, p)
    ensures Apply(c, op).order == c.order || Apply(c, op).order == Without(c.order, op.path)
  {
    assert !Uses(c, op, op.path);
    if op.Offered? {
      PutRefused(c, op.path, op.status, op.body, op.now);
    }
  }

  /** An operation that uses a path puts it first. */
  lemma UseComesFirst(c: Cache, op: Op, path: string)
    requires Valid(c) && Uses(c, op, path)
    ensures UsedFirst(c.order, path, Apply(c, op).order)
  {
    if op.Offered? {
      var k := PutStores(c, path, op.status, op.body, op.now);
      if path !in c.entries {
        WithoutMembers(c.order, path);
      }
      var kept := Keep(Remove(c, path), k).order;
      assert ([path] + kept)[1..] == kept;
    } else {
      assert ([path] + Without(c.order, path))[1..] == Without(c.order, path);
    }
  }

  // ----- Whole runs -----

  ghost function Rank(ops: seq<Op>): string -> nat { p => LastUse(ops, p) }

  /** After every run the list is strictly in order of last use, most recent first; so what
      eviction drops is what was not used for longest. */
  lemma {:induction false} OrderIsRecency(ops: seq<Op>)
    ensures Descending(After(ops).order, Rank(ops))
  {
    if ops == [] {
    } else {
      var before, op := ops[..|ops| - 1], ops[|ops| - 1];
      var c := After(before);
      OrderIsRecency(before);
      EveryRunIsValid(before);
      if path :| Uses(c, op, path) {
        UseComesFirst(c, op, path);
        UsedFirstDescending(c.order, path, After(ops).order, Rank(before), Rank(ops));
      } else {
        UnusedKeepsOrder(c, op);
        WithoutDescending(c.order, op.path, Rank(before));
        SameRank(After(ops).order, Rank(before), Rank(ops));
      }
    }
  }

  lemma SameRank(order: seq<string>, rank: string -> nat, rank': string -> nat)
    requires Descending(order, rank) && forall p :: rank'(p) == rank(p)
    ensures Descending(order, rank')
  {
  }
}
