/** The response cache as the program holds it: fields that its methods update. The
    linked recency list is a sequence here, and the lock is left out: each method runs
    under it from start to end. */
module CacheStore {
  import opened CacheModel
  import opened Integers
  import opened Wrappers

  class ResponseCache {
    var ttls: map<string, int>
    var absentTtls: map<string, int>
    var admit: map<string, AdmitRule>
    var bodyTtls: map<string, BodyTtlRule>
    var entries: map<string, Entry>
    var order: seq<string>
    var bytes: int

    ghost function State(): Cache
      reads this
    {
      Cache(ttls, absentTtls, admit, bodyTtls, entries, order, bytes)
    }

    constructor ()
      ensures State() == Empty() && Valid(State())
    {
      ttls, absentTtls, admit, bodyTtls := map[], map[], map[], map[];
      entries, order, bytes := map[], [], 0;
    }

    method Drop(path: string)
      modifies this
      ensures State() == Remove(old(State()), path)
    {
      if path in entries {
        order := DropFrom(order, path);
        bytes := bytes - entries[path].cost;
        entries := entries - {path};
      }
    }

    /** Unlinks a path from the list. */
    static method DropFrom(order: seq<string>, path: string) returns (rest: seq<string>)
      ensures rest == Without(order, path)
    {
      rest := [];
      var i := |order|;
      while i > 0
        invariant 0 <= i <= |order| && rest == Without(order[i..], path)
      {
        i := i - 1;
        assert order[i..][1..] == order[i + 1..];
        if order[i] != path {
          rest := [order[i]] + rest;
        }
      }
      assert order[0..] == order;
    }

    method SetTTL(path: string, ttl: int)
      modifies this
      ensures State() == SetTtl(old(State()), path, ttl)
    {
      if ttl <= 0 {
        ttls := ttls - {path};
        Drop(path);
      } else {
        ttls := ttls[path := ttl];
      }
    }

    method SetAbsentTTL(path: string, ttl: int)
      modifies this
      ensures State() == SetAbsentTtl(old(State()), path, ttl)
    {
      if ttl <= 0 {
        absentTtls := absentTtls - {path};
        Drop(path);
      } else {
        absentTtls := absentTtls[path := ttl];
      }
    }

    method SetAdmissionRule(path: string, rule: Option<AdmitRule>)
      modifies this`admit
      ensures State() == SetAdmission(old(State()), path, rule)
    {
      admit := if rule.None? then admit - {path} else admit[path := rule.value];
    }

    method SetBodyTTLRule(path: string, rule: Option<BodyTtlRule>)
      modifies this`bodyTtls
      ensures State() == SetBodyTtl(old(State()), path, rule)
    {
      bodyTtls := if rule.None? then bodyTtls - {path} else bodyTtls[path := rule.value];
    }

    method Lookup(path: string, now: int) returns (hit: Option<Entry>)
      requires Valid(State())
      modifies this
      ensures (State(), hit) == Get(old(State()), path, now)
      ensures Valid(State())
    {
      GetValid(State(), path, now);
      if path !in entries {
        return None;
      }
      var entry := entries[path];
      if now >= entry.expiresAt {
        Drop(path);
        return None;
      }
      order := DropFrom(order, path);
      order := [path] + order;
      return Some(entry);
    }

    method Store(path: string, status: int, body: string, now: int) returns (stored: bool)
      requires Valid(State())
      modifies this
      ensures (State(), stored) == Put(old(State()), path, status, body, now)
      ensures Valid(State())
      ensures stored <==> Admits(old(State()), path, status, body)
      ensures stored ==>
        && path in entries
        && entries[path] == Entry(status, body, now, now + LifeOf(old(State()), path, status, body), |body|)
      ensures !stored ==> State() == old(State())
    {
      PutIsExact(State(), path, status, body, now);
      var ttl := LifetimeOf(path, status, body);
      if ttl.None? {
        return false;
      }
      Drop(path);
      RemoveValid(old(State()), path);
      var room := MakeRoom(|body|);
      if !room {
        return false;
      }
      PushFront(path, Entry(status, body, now, now + ttl.value, |body|));
      return true;
    }

    method PushFront(path: string, e: Entry)
      modifies this
      ensures State() == Insert(old(State()), path, e)
    {
      entries := entries[path := e];
      order := [path] + order;
      bytes := bytes + e.cost;
    }

    /** The TTL to store an answer under, if it may be stored. */
    method LifetimeOf(path: string, status: int, body: string) returns (ttl: Option<int>)
      requires Valid(State())
      ensures ttl == StoreTtl(State(), path, status, body)
      ensures ttl == if Admits(State(), path, status, body) then Some(LifeOf(State(), path, status, body)) else None
    {
      StoreTtlIsLife(State(), path, status, body);
      if 200 <= status < 300 && path in ttls {
        ttl := Some(ttls[path]);
      } else if status == 404 && path in absentTtls {
        ttl := Some(absentTtls[path]);
      } else {
        return None;
      }
      if |body| > MAX_ENTRY_BYTES {
        return None;
      }
      if 200 <= status < 300 {
        if path in admit && !admit[path](body) {
          return None;
        }
        if path in bodyTtls {
          var capped := Min(ttl.value, bodyTtls[path](body, ttl.value));
          if capped <= 0 {
            return None;
          }
          ttl := Some(capped);
        }
      }
    }

    /** Drops from the back of the list until `need` bytes fit. */
    method MakeRoom(need: nat) returns (room: bool)
      requires Valid(State()) && need <= MAX_BYTES
      modifies this
      ensures room && Evict(old(State()), need) == Some(State()) && Valid(State())
    {
      while bytes + need > MAX_BYTES
        invariant Valid(State()) && Evict(old(State()), need) == Evict(State(), need)
        decreases |order|
      {
        if order == [] {
          return false;
        }
        var back := order[|order| - 1];
        assert back in order;
        RemoveValid(State(), back);
        Drop(back);
      }
      return true;
    }
  }
}
