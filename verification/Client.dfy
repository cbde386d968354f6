/** One API call, with the cache in front of it and without, and the theorem that a
    caller cannot tell the two apart. */
module Client {
  import opened CacheModel
  import opened CacheStore
  import opened Retry
  import opened Wrappers
  import Runs = CacheRuns

  /** A GET carries no body; what a POST asks depends on what it posts. */
  datatype Request = Fetch(path: string) | Post(path: string, form: string) {
    function Verb(): string { if Fetch? then "GET" else "POST" }
  }

  /** The body of a response, or why it could not be read or unzipped. */
  datatype Payload = Body(bytes: string) | Unreadable(cause: string)

  datatype DecodeError = DecodeError(text: string, partial: bool)

  /** What a call decodes into, and the limit its client, or clone of it, sets to response
      bodies. */
  datatype Caller = Caller(target: nat, limit: nat)

  /** Everything a call depends on besides the cache and the caller: what the server answers
      to each attempt of a request, JSON decoding into a target, the shortening of error
      bodies, and what counts as blank. */
  datatype World = World(
    server: Request -> seq<Attempt<Payload>>,
    decode: (nat, string) -> Result<string, DecodeError>,
    shorten: string -> string,
    blank: string -> bool)

  datatype Message =
    | RetriesUsedUp(cause: string)
    | ReadFailed(cause: string)
    | TooLarge(limit: nat)
    | Reported(body: string)
    | EmptyNdp
    | Undecodable(text: string, body: string)

  datatype Reply = Value(value: string) | Error(path: string, message: Message, status: int, partial: bool)

  const NDP_PATH := "api/diagnostics/interface/get_ndp"

  /** A body decoded into the caller's target, live or replayed. */
  function Unmarshal(w: World, path: string, body: string, status: int, caller: Caller): Reply {
    match w.decode(caller.target, body)
    case Ok(value) => Value(value)
    case Err(e) => Error(path, Undecodable(e.text, w.shorten(body)), status, e.partial)
  }

  /** What a response means to the caller, and what of it is offered to the cache. */
  datatype Reading = Reading(reply: Reply, offer: Option<(int, string)>)

  function Read(w: World, req: Request, status: int, payload: Payload, caller: Caller): Reading {
    match payload
    case Unreadable(cause) => Reading(Error(req.path, ReadFailed(cause), status, false), None)
    case Body(bytes) =>
      if |bytes| > caller.limit then Reading(Error(req.path, TooLarge(caller.limit), status, false), None)
      else if !IsSuccess(status) then
        Reading(Error(req.path, Reported(w.shorten(bytes)), status, false), Some((status, w.shorten(bytes))))
      else if req.path == NDP_PATH && w.blank(bytes) then
        Reading(Error(req.path, EmptyNdp, status, false), None)
      else
        var reply := Unmarshal(w, req.path, bytes, status, caller);
        Reading(reply, if reply.Value? && req.Fetch? then Some((status, bytes)) else None)
  }

  function FinalOf(w: World, req: Request): Outcome<Payload> {
    OutcomeFrom(req.Verb(), w.server(req), 0)
  }

  /** A call that goes to the server. */
  function Live(w: World, req: Request, caller: Caller): Reading {
    match FinalOf(w, req)
    case Final(status, payload) => Read(w, req, status, payload, caller)
    case Exhausted(cause) => Reading(Error(req.path, RetriesUsedUp(cause), 0, false), None)
    case Crashed => Reading(Error(req.path, RetriesUsedUp(""), 0, false), None)
  }

  /** How a call was served: from a held body, from a held absence, or by one request. */
  datatype Served = BodyHit | AbsentHit | Observed

  datatype CallResult = CallResult(cache: Cache, reply: Reply, served: Served, stored: bool)

  /** A call through the cache, consulted at `now`; the response is in at `later`. */
  function Call(c: Cache, w: World, req: Request, caller: Caller, now: int, later: int): CallResult {
    var (c1, hit) := Get(c, req.path, now);
    ServedFrom(c1, hit, w, req, caller, later)
  }

  /** The answer once the cache was asked: a stored absence serves every request, a stored
      body only a fetch, and the server everything else. */
  function ServedFrom(c: Cache, hit: Option<Entry>, w: World, req: Request, caller: Caller, later: int): CallResult {
    if hit.Some? && hit.value.status == 404 then
      CallResult(c, Error(req.path, Reported(hit.value.body), 404, false), AbsentHit, false)
    else if hit.Some? && req.Fetch? then
      CallResult(c, Unmarshal(w, req.path, hit.value.body, hit.value.status, caller), BodyHit, false)
    else Offered(c, req.path, Live(w, req, caller), later)
  }

  /** The cache takes what a response offers it, if anything. */
  function Offered(c: Cache, path: string, r: Reading, later: int): CallResult {
    if r.offer.None? then CallResult(c, r.reply, Observed, false) else
    var (c', stored) := Put(c, path, r.offer.value.0, r.offer.value.1, later);
    CallResult(c', r.reply, Observed, stored)
  }

  // ----- What a call replies, case by case -----

  /** Attempt k leaves the request undecided: it has no response, or a gateway error to a
      fetch that can be tried again. */
  predicate Undecided(req: Request, script: seq<Attempt<Payload>>, k: nat)
    requires k < |script|
  {
    match script[k]
    case Broken(_) => true
    case Answered(status, _) => req.Fetch? && (status == 502 || status == 503 || status == 504) && k + 1 < |script|
  }

  /** Attempt k is the first that decides the request. */
  ghost predicate DecidedAt(w: World, req: Request, k: nat) {
    && k < |w.server(req)| && !Undecided(req, w.server(req), k)
    && forall j :: 0 <= j < k ==> Undecided(req, w.server(req), j)
  }

  /** A body was read, and whole. */
  predicate ReadWhole(payload: Payload, limit: nat) { payload.Body? && |payload.bytes| <= limit }

  /** The reply to a response, in every case, and what of it the cache is offered. */
  ghost predicate Means(w: World, req: Request, status: int, payload: Payload, caller: Caller, r: Reading) {
    var whole, success := ReadWhole(payload, caller.limit), 200 <= status < 300;
    // A value, exactly for a success whose body decodes.
    && (forall v :: r.reply == Value(v) <==>
         && whole && success && w.decode(caller.target, payload.bytes) == Ok(v)
         && !(req.path == "api/diagnostics/interface/get_ndp" && w.blank(payload.bytes)))
    // Otherwise an error, by the first thing that is wrong.
    && (payload.Unreadable? ==> r.reply == Error(req.path, ReadFailed(payload.cause), status, false))
    && (payload.Body? && !whole ==> r.reply == Error(req.path, TooLarge(caller.limit), status, false))
    && (whole && !success ==> r.reply == Error(req.path, Reported(w.shorten(payload.bytes)), status, false))
    && (whole && success && req.path == "api/diagnostics/interface/get_ndp" && w.blank(payload.bytes) ==>
         r.reply == Error(req.path, EmptyNdp, status, false))
    && (forall e ::
         (&& whole && success && w.decode(caller.target, payload.bytes) == Err(e)
          && !(req.path == "api/diagnostics/interface/get_ndp" && w.blank(payload.bytes))) ==>
         r.reply == Error(req.path, Undecodable(e.text, w.shorten(payload.bytes)), status, e.partial))
    // Offered: the shortened body of a whole failure, and the body of a fetch that decoded.
    && (forall s, b :: r.offer == Some((s, b)) <==>
         && whole && s == status
         && ((!success && b == w.shorten(payload.bytes)) || (success && r.reply.Value? && req.Fetch? && b == payload.bytes)))
  }

  lemma ReadMeans(w: World, req: Request, status: int, payload: Payload, caller: Caller)
    ensures Means(w, req, status, payload, caller, Read(w, req, status, payload, caller))
  {
  }

  /** A call without a cache replies what its first deciding attempt means, and if none
      decides, an error with the cause of the last. */
  lemma UncachedReply(w: World, req: Request, caller: Caller)
    ensures forall k: nat :: DecidedAt(w, req, k) ==>
      Means(w, req, w.server(req)[k].status, w.server(req)[k].reply, caller, Live(w, req, caller))
    ensures var script := w.server(req);
      (forall k :: 0 <= k < |script| ==> Undecided(req, script, k)) ==>
        Live(w, req, caller) == Reading(Error(req.path, RetriesUsedUp(
          if script != [] && script[|script| - 1].Broken? then script[|script| - 1].cause else "unknown error"), 0, false), None)
  {
    var script := w.server(req);
    forall j | 0 <= j < |script| ensures Undecided(req, script, j) <==> !Decides(req.Verb(), script, j) {
    }
    forall k: nat | DecidedAt(w, req, k)
      ensures Means(w, req, script[k].status, script[k].reply, caller, Live(w, req, caller))
    {
      assert FirstDeciding(req.Verb(), script, 0) == k;
      ReadMeans(w, req, script[k].status, script[k].reply, caller);
    }
  }

  /** The cache holds an answer for the path that is still good. */
  predicate Holds(c: Cache, path: string, now: int) {
    path in c.entries && now < c.entries[path].expiresAt
  }

  /** A call through the cache: a 404 that is held is replayed to every request, any other
      answer to a fetch, decoded for the caller; everything else goes to the server. */
  lemma CachedReply(c: Cache, w: World, req: Request, caller: Caller, now: int, later: int)
    ensures var r := Call(c, w, req, caller, now, later);
      if Holds(c, req.path, now) && c.entries[req.path].status == 404 then
        r.served == AbsentHit && !r.stored && r.reply == Error(req.path, Reported(c.entries[req.path].body), 404, false)
      else if Holds(c, req.path, now) && req.Fetch? then
        && r.served == BodyHit && !r.stored
        && var e := c.entries[req.path];
           match w.decode(caller.target, e.body)
           case Ok(v) => r.reply == Value(v)
           case Err(error) => r.reply == Error(req.path, Undecodable(error.text, w.shorten(e.body)), e.status, error.partial)
      else r.served == Observed && r.reply == Live(w, req, caller).reply
  {
  }

  // ----- The cached client refines the uncached one -----

  /** Whether a path answers 404, and how, does not depend on the request. */
  ghost predicate AbsenceIsPerPath(w: World) {
    forall r: Request, r': Request :: r.path == r'.path && FinalOf(w, r).Final? && FinalOf(w, r).status == 404
      ==> FinalOf(w, r') == FinalOf(w, r)
  }

  /** The answer of the server to this request is within the limit. */
  predicate Fits(w: World, req: Request, limit: nat) {
    match FinalOf(w, req)
    case Final(_, Body(bytes)) => |bytes| <= limit
    case _ => true
  }

  /** The entry says what the server would say now, to any caller it may be replayed to whose
      limit the answer does not exceed. */
  ghost predicate Truthful(w: World, path: string, e: Entry) {
    if e.status == 404 then
      forall r: Request, t: Caller :: r.path == path && Fits(w, r, t.limit) ==>
        Live(w, r, t).reply == Error(path, Reported(e.body), 404, false)
    else
      forall t: Caller :: Fits(w, Fetch(path), t.limit) ==>
        Live(w, Fetch(path), t).reply == Unmarshal(w, path, e.body, e.status, t)
  }

  ghost predicate AllTruthful(w: World, c: Cache) {
    forall p :: p in c.entries ==> Truthful(w, p, c.entries[p])
  }

  lemma OfferIsTruthful(w: World, req: Request, caller: Caller, e: Entry)
    requires AbsenceIsPerPath(w) && Live(w, req, caller).offer == Some((e.status, e.body))
    requires IsSuccess(e.status) || e.status == 404
    ensures Truthful(w, req.path, e)
  {
    if e.status == 404 {
      forall r: Request, t: Caller | r.path == req.path && Fits(w, r, t.limit)
        ensures Live(w, r, t).reply == Error(req.path, Reported(e.body), 404, false)
      {
        assert FinalOf(w, r) == FinalOf(w, req);
      }
    }
  }

  lemma GetTruthful(w: World, c: Cache, path: string, now: int)
    requires AllTruthful(w, c)
    ensures AllTruthful(w, Get(c, path, now).0)
  {
  }

  lemma PutTruthful(w: World, c: Cache, path: string, status: int, body: string, now: int)
    requires Valid(c) && AllTruthful(w, c)
    requires IsSuccess(status) || status == 404 ==> forall e: Entry :: e.status == status && e.body == body ==> Truthful(w, path, e)
    ensures AllTruthful(w, Put(c, path, status, body, now).0)
  {
    if !Admits(c, path, status, body) {
      PutRefused(c, path, status, body, now);
    } else {
      forall p | p in Put(c, path, status, body, now).0.entries
        ensures Truthful(w, p, Put(c, path, status, body, now).0.entries[p])
      {
        Runs.PutOrigin(c, path, status, body, now, p);
      }
    }
  }

  /** A response over the limit is an error that no replayed answer is. */
  lemma OverLimit(w: World, req: Request, caller: Caller)
    requires !Fits(w, req, caller.limit)
    ensures Live(w, req, caller).reply.Error? && Live(w, req, caller).reply.message == TooLarge(caller.limit)
  {
  }

  /** The cache holds an answer that is replayed to this request: an absence to any, a body
      to a fetch. */
  predicate Replays(c: Cache, req: Request, now: int) {
    var hit := Get(c, req.path, now).1;
    hit.Some? && (hit.value.status == 404 || req.Fetch?)
  }

  /** One call: the cache stays true, and the reply is the one an uncached client gets if and
      only if nothing is replayed or the server's answer is within the caller's limit. */
  lemma CallRefines(c: Cache, w: World, req: Request, caller: Caller, now: int, later: int)
    requires Valid(c) && AllTruthful(w, c) && AbsenceIsPerPath(w)
    ensures var r := Call(c, w, req, caller, now, later);
      && (r.served == Observed <==> !Replays(c, req, now))
      && (r.reply == Live(w, req, caller).reply <==> !Replays(c, req, now) || Fits(w, req, caller.limit))
    ensures Valid(Call(c, w, req, caller, now, later).cache)
    ensures AllTruthful(w, Call(c, w, req, caller, now, later).cache)
  {
    var (c1, hit) := Get(c, req.path, now);
    GetValid(c, req.path, now);
    GetTruthful(w, c, req.path, now);
    HitIsTruthful(w, c, req.path, now);
    ServedRefines(w, c1, hit, req, caller, later);
    OfferedStaysTrue(w, c1, req, caller, later);
  }

  lemma HitIsTruthful(w: World, c: Cache, path: string, now: int)
    requires AllTruthful(w, c)
    ensures var hit := Get(c, path, now).1; hit.Some? ==> Truthful(w, path, hit.value)
  {
  }

  lemma ServedRefines(w: World, c: Cache, hit: Option<Entry>, req: Request, caller: Caller, later: int)
    requires hit.Some? ==> Truthful(w, req.path, hit.value)
    ensures var r := ServedFrom(c, hit, w, req, caller, later);
      r.reply == Live(w, req, caller).reply <==> r.served == Observed || Fits(w, req, caller.limit)
  {
    if hit.Some? && !Fits(w, req, caller.limit) {
      OverLimit(w, req, caller);
    }
  }

  lemma OfferedStaysTrue(w: World, c: Cache, req: Request, caller: Caller, later: int)
    requires Valid(c) && AllTruthful(w, c) && AbsenceIsPerPath(w)
    ensures var after := Offered(c, req.path, Live(w, req, caller), later).cache; Valid(after) && AllTruthful(w, after)
  {
    var live := Live(w, req, caller);
    if live.offer.Some? {
      var (status, body) := live.offer.value;
      PutIsExact(c, req.path, status, body, later);
      forall e: Entry | e.status == status && e.body == body && (IsSuccess(status) || status == 404)
        ensures Truthful(w, req.path, e)
      {
        OfferIsTruthful(w, req, caller, e);
      }
      PutTruthful(w, c, req.path, status, body, later);
    }
  }

  // ----- Sessions: calls and changes of the settings, in any order -----

  datatype Step = Setting(op: Runs.Op) | Calling(req: Request, caller: Caller, now: int, later: int)

  /** Settings may change TTLs and rules, not fill the cache behind the client's back. */
  predicate Proper(steps: seq<Step>) {
    forall i :: 0 <= i < |steps| ==> steps[i].Setting? ==> !steps[i].op.Gotten? && !steps[i].op.Offered?
  }

  function CacheAfter(w: World, steps: seq<Step>): Cache {
    if steps == [] then Empty() else
    var c := CacheAfter(w, steps[..|steps| - 1]);
    match steps[|steps| - 1]
    case Setting(op) => Runs.Apply(c, op)
    case Calling(req, caller, now, later) => Call(c, w, req, caller, now, later).cache
  }

  /** The call made at step i of a session. */
  function CallAt(w: World, steps: seq<Step>, i: nat): CallResult
    requires i < |steps| && steps[i].Calling?
  {
    Call(CacheAfter(w, steps[..i]), w, steps[i].req, steps[i].caller, steps[i].now, steps[i].later)
  }

  lemma ChangeStaysTrue(w: World, c: Cache, op: Runs.Op)
    requires Valid(c) && AllTruthful(w, c) && !op.Offered?
    ensures Valid(Runs.Apply(c, op)) && AllTruthful(w, Runs.Apply(c, op))
  {
    Runs.ApplyValid(c, op);
    forall p | p in Runs.Apply(c, op).entries ensures Truthful(w, p, Runs.Apply(c, op).entries[p]) {
      Runs.QuietOrigin(c, op, p);
    }
  }

  lemma {:induction false} SessionsStayTrue(w: World, steps: seq<Step>)
    requires Proper(steps) && AbsenceIsPerPath(w)
    ensures Valid(CacheAfter(w, steps)) && AllTruthful(w, CacheAfter(w, steps))
  {
    if steps == [] {
    } else {
      var before, last := steps[..|steps| - 1], steps[|steps| - 1];
      SessionsStayTrue(w, before);
      var c := CacheAfter(w, before);
      match last
      case Setting(op) => ChangeStaysTrue(w, c, op);
      case Calling(req, caller, now, later) =>
        CallRefines(c, w, req, caller, now, later);
    }
  }

  /** Against a server with fixed answers whose 404s depend only on the path, a call of a
      session, under any settings, any changes of them and any clock, gets the very reply or
      error a client without a cache gets, if and only if the cache holds nothing to replay to
      it or the server's answer is within the caller's limit. */
  lemma CachedRefinesUncached(w: World, steps: seq<Step>, i: nat)
    requires Proper(steps) && AbsenceIsPerPath(w) && i < |steps| && steps[i].Calling?
    ensures CallAt(w, steps, i).reply == Live(w, steps[i].req, steps[i].caller).reply
       <==> !Replays(CacheAfter(w, steps[..i]), steps[i].req, steps[i].now) || Fits(w, steps[i].req, steps[i].caller.limit)
  {
    SessionsStayTrue(w, steps[..i]);
    CallRefines(CacheAfter(w, steps[..i]), w, steps[i].req, steps[i].caller, steps[i].now, steps[i].later);
  }

  /** What is held for a path came in under the limit. */
  ghost predicate AllFit(w: World, c: Cache, limit: nat) {
    forall p :: p in c.entries ==> FitsEntry(w, p, c.entries[p], limit)
  }

  ghost predicate FitsEntry(w: World, path: string, e: Entry, limit: nat) {
    if e.status == 404 then forall r: Request :: r.path == path ==> Fits(w, r, limit) else Fits(w, Fetch(path), limit)
  }

  /** Every call of the session is under this limit. */
  predicate Under(steps: seq<Step>, limit: nat) {
    forall i :: 0 <= i < |steps| ==> steps[i].Calling? ==> steps[i].caller.limit == limit
  }

  lemma OfferFits(w: World, req: Request, caller: Caller, e: Entry)
    requires AbsenceIsPerPath(w) && Live(w, req, caller).offer == Some((e.status, e.body))
    requires e.status == 404 || req.Fetch?
    ensures FitsEntry(w, req.path, e, caller.limit)
  {
    if e.status == 404 {
      forall r: Request | r.path == req.path ensures Fits(w, r, caller.limit) {
        assert FinalOf(w, r) == FinalOf(w, req);
      }
    }
  }

  lemma {:induction false} SessionsFit(w: World, steps: seq<Step>, limit: nat)
    requires Proper(steps) && AbsenceIsPerPath(w) && Under(steps, limit)
    ensures AllFit(w, CacheAfter(w, steps), limit)
  {
    if steps == [] {
    } else {
      var before, last := steps[..|steps| - 1], steps[|steps| - 1];
      SessionsFit(w, before, limit);
      SessionsAreValid(w, before);
      var c := CacheAfter(w, before);
      forall p | p in CacheAfter(w, steps).entries ensures FitsEntry(w, p, CacheAfter(w, steps).entries[p], limit) {
        match last
        case Setting(op) => Runs.QuietOrigin(c, op, p);
        case Calling(req, caller, now, later) => CallFits(c, w, req, caller, now, later, p);
      }
    }
  }

  lemma CallFits(c: Cache, w: World, req: Request, caller: Caller, now: int, later: int, p: string)
    requires Valid(c) && AbsenceIsPerPath(w) && AllFit(w, c, caller.limit) && p in Call(c, w, req, caller, now, later).cache.entries
    ensures FitsEntry(w, p, Call(c, w, req, caller, now, later).cache.entries[p], caller.limit)
  {
    var e := Call(c, w, req, caller, now, later).cache.entries[p];
    CallOrigin(c, w, req, caller, now, later, p);
    if !(p in c.entries && e == c.entries[p]) {
      if req.Post? {
        PostsAreLive(c, w, req, caller, now, later);
      }
      OfferFits(w, req, caller, e);
    }
  }

  /** As long as every call has one limit, every call gets what it would get without a
      cache. */
  lemma OneLimitRefines(w: World, steps: seq<Step>, limit: nat, i: nat)
    requires Proper(steps) && AbsenceIsPerPath(w) && Under(steps, limit) && i < |steps| && steps[i].Calling?
    ensures CallAt(w, steps, i).reply == Live(w, steps[i].req, steps[i].caller).reply
  {
    CachedRefinesUncached(w, steps, i);
    assert Under(steps[..i], limit);
    SessionsFit(w, steps[..i], limit);
    HitFits(CacheAfter(w, steps[..i]), w, steps[i].req, limit, steps[i].now);
  }

  lemma HitFits(c: Cache, w: World, req: Request, limit: nat, now: int)
    requires AllFit(w, c, limit)
    ensures Replays(c, req, now) ==> Fits(w, req, limit)
  {
    if req.path in c.entries {
      assert FitsEntry(w, req.path, c.entries[req.path], limit);
    }
  }

  // ----- A caller with a lower limit -----

  /** Turn a path's cache on, fetch it, and fetch it again for another caller. */
  function FetchTwice(path: string, ttl: int, first: Caller, second: Caller, now: int, later: int): seq<Step> {
    [Setting(Runs.TtlSet(path, ttl)), Calling(Fetch(path), first, now, now), Calling(Fetch(path), second, later, later)]
  }

  /** The server answers a fetch of the path with these bytes, and they decode. */
  predicate Serves(w: World, path: string, status: int, bytes: string, first: Caller) {
    && FinalOf(w, Fetch(path)) == Final(status, Body(bytes)) && IsSuccess(status)
    && w.decode(first.target, bytes).Ok? && !(path == NDP_PATH && w.blank(bytes))
  }

  /** A body that one caller fetched is replayed to another whose limit it exceeds, who would
      get an error without the cache. */
  lemma LowerLimitTells(w: World, path: string, status: int, bytes: string, ttl: int, first: Caller, second: Caller, now: int, later: int)
    requires Serves(w, path, status, bytes, first) && second.limit < |bytes| <= first.limit && |bytes| <= MAX_ENTRY_BYTES
    requires 0 < ttl && later < now + ttl
    ensures var steps := FetchTwice(path, ttl, first, second, now, later);
      CallAt(w, steps, 2).reply != Live(w, Fetch(path), second).reply
  {
    var steps := FetchTwice(path, ttl, first, second, now, later);
    var on := SetTtl(Empty(), path, ttl);
    assert steps[..0] == [] && steps[..1][..0] == [] && steps[..2][..1] == steps[..1];
    assert CacheAfter(w, steps[..1]) == on;
    var held := Put(on, path, status, bytes, now).0;
    assert Live(w, Fetch(path), first).offer == Some((status, bytes));
    assert CacheAfter(w, steps[..2]) == held;
    EmptyIsValid(path, ttl);
    assert Admits(on, path, status, bytes) && LifeOf(on, path, status, bytes) == ttl;
    Runs.StoredIsFound(on, path, status, bytes, now, later);
    OverLimit(w, Fetch(path), second);
  }

  lemma EmptyIsValid(path: string, ttl: int)
    requires ttl > 0
    ensures Valid(SetTtl(Empty(), path, ttl))
  {
    Runs.EveryRunIsValid([]);
    Runs.SetTtlValid(Empty(), path, ttl);
  }

  /** A session against a fixed server where a caller can tell the cache. */
  ghost predicate Tells(w: World, steps: seq<Step>, i: nat) {
    && Proper(steps) && AbsenceIsPerPath(w) && i < |steps| && steps[i].Calling?
    && CallAt(w, steps, i).reply != Live(w, steps[i].req, steps[i].caller).reply
  }

  /** There is one: a server that answers "ab", and a second caller with a limit of one
      byte. */
  lemma SomeLimitTells() returns (w: World, steps: seq<Step>)
    ensures Tells(w, steps, 2)
  {
    w := World(r => [Answered(200, Body("ab"))], (t, b) => Result<string, DecodeError>.Ok(b), b => b, b => false);
    var first, second := Caller(0, 5), Caller(0, 1);
    assert FinalOf(w, Fetch("p")) == Final(200, Body("ab"));
    LowerLimitTells(w, "p", 200, "ab", 10, first, second, 0, 1);
    steps := FetchTwice("p", 10, first, second, 0, 1);
    assert forall r: Request :: FinalOf(w, r).Final? ==> FinalOf(w, r).status == 200;
    assert Proper(steps) && steps[2].Calling?;
  }

  // ----- Calls that overlap -----

  /** Concurrent calls share the cache: one may look it up, and others may look up and store
      before its own response is in. A landing is the response to the call that looked at
      that move. */
  datatype Move = Change(op: Runs.Op) | Look(req: Request, caller: Caller, now: int) | Land(look: nat, later: int)

  predicate Legal(moves: seq<Move>) {
    forall i :: 0 <= i < |moves| ==>
      match moves[i]
      case Change(op) => !op.Gotten? && !op.Offered?
      case Look(_, _, _) => true
      case Land(look, _) => look < i && moves[look].Look?
  }

  function CacheBy(w: World, moves: seq<Move>): Cache
    requires Legal(moves)
  {
    if moves == [] then Empty() else AfterMove(w, CacheBy(w, moves[..|moves| - 1]), moves, |moves| - 1)
  }

  /** The cache after move n. */
  function AfterMove(w: World, c: Cache, moves: seq<Move>, n: nat): Cache
    requires Legal(moves) && n < |moves|
  {
    match moves[n]
    case Change(op) => Runs.Apply(c, op)
    case Look(req, _, now) => Get(c, req.path, now).0
    case Land(look, later) => Offered(c, moves[look].req.path, Live(w, moves[look].req, moves[look].caller), later).cache
  }

  lemma MoveStaysTrue(w: World, c: Cache, moves: seq<Move>, n: nat)
    requires Legal(moves) && n < |moves| && AbsenceIsPerPath(w) && Valid(c) && AllTruthful(w, c)
    ensures Valid(AfterMove(w, c, moves, n)) && AllTruthful(w, AfterMove(w, c, moves, n))
  {
    match moves[n]
    case Change(op) => ChangeStaysTrue(w, c, op);
    case Look(req, _, now) =>
      GetValid(c, req.path, now);
      GetTruthful(w, c, req.path, now);
    case Land(look, later) => OfferedStaysTrue(w, c, moves[look].req, moves[look].caller, later);
  }

  lemma {:induction false} MovesStayTrue(w: World, moves: seq<Move>)
    requires Legal(moves) && AbsenceIsPerPath(w)
    ensures Valid(CacheBy(w, moves)) && AllTruthful(w, CacheBy(w, moves))
  {
    if moves == [] {
      Runs.EveryRunIsValid([]);
    } else {
      var n := |moves| - 1;
      MovesStayTrue(w, moves[..n]);
      MoveStaysTrue(w, CacheBy(w, moves[..n]), moves, n);
    }
  }

  /** What the call that looks at move i replies, now or when its response lands. */
  function ReplyTo(w: World, moves: seq<Move>, i: nat): Reply
    requires Legal(moves) && i < |moves| && moves[i].Look?
  {
    var (c, hit) := Get(CacheBy(w, moves[..i]), moves[i].req.path, moves[i].now);
    ServedFrom(c, hit, w, moves[i].req, moves[i].caller, 0).reply
  }

  /** However calls overlap, each gets what it would get without a cache, if and only if
      nothing is replayed to it or the answer is within its limit. */
  lemma OverlappingRefines(w: World, moves: seq<Move>, i: nat)
    requires Legal(moves) && AbsenceIsPerPath(w) && i < |moves| && moves[i].Look?
    ensures ReplyTo(w, moves, i) == Live(w, moves[i].req, moves[i].caller).reply
       <==> !Replays(CacheBy(w, moves[..i]), moves[i].req, moves[i].now) || Fits(w, moves[i].req, moves[i].caller.limit)
  {
    MovesStayTrue(w, moves[..i]);
    CallRefines(CacheBy(w, moves[..i]), w, moves[i].req, moves[i].caller, moves[i].now, 0);
  }

  // ----- Accounts -----

  /** A POST is never answered with a held body, and its success never stored. */
  lemma PostsAreLive(c: Cache, w: World, req: Request, caller: Caller, now: int, later: int)
    requires req.Post?
    ensures var r := Call(c, w, req, caller, now, later);
      r.served != BodyHit && (r.stored ==> Live(w, req, caller).offer.value.0 == 404)
  {
    var live := Live(w, req, caller);
    if live.offer.Some? {
      var c1 := Get(c, req.path, now).0;
      assert Put(c1, req.path, live.offer.value.0, live.offer.value.1, later).1
        ==> StoreTtl(c1, req.path, live.offer.value.0, live.offer.value.1).Some?;
    }
  }

  lemma {:induction false} SessionsAreValid(w: World, steps: seq<Step>)
    ensures Valid(CacheAfter(w, steps))
  {
    if steps == [] {
    } else {
      SessionsAreValid(w, steps[..|steps| - 1]);
      var c := CacheAfter(w, steps[..|steps| - 1]);
      match steps[|steps| - 1]
      case Setting(op) => Runs.ApplyValid(c, op);
      case Calling(req, caller, now, later) => CallValid(c, w, req, caller, now, later);
    }
  }

  lemma CallValid(c: Cache, w: World, req: Request, caller: Caller, now: int, later: int)
    requires Valid(c)
    ensures Valid(Call(c, w, req, caller, now, later).cache)
  {
    GetValid(c, req.path, now);
    var offer := Live(w, req, caller).offer;
    if offer.Some? {
      PutIsExact(Get(c, req.path, now).0, req.path, offer.value.0, offer.value.1, later);
    }
  }

  /** An entry held after a call was held before, or this call stored it. */
  lemma CallOrigin(c: Cache, w: World, req: Request, caller: Caller, now: int, later: int, p: string)
    requires Valid(c) && p in Call(c, w, req, caller, now, later).cache.entries
    ensures var r := Call(c, w, req, caller, now, later); var e := r.cache.entries[p];
      || (p in c.entries && e == c.entries[p])
      || (p == req.path && r.served == Observed && r.stored && e.storedAt == later
          && Live(w, req, caller).offer == Some((e.status, e.body)))
  {
    var (c1, hit) := Get(c, req.path, now);
    GetValid(c, req.path, now);
    if p in c1.entries {
      GetOrigin(c, req.path, now, p);
    }
    var offer := Live(w, req, caller).offer;
    if Call(c, w, req, caller, now, later).served == Observed && offer.Some? {
      OfferOrigin(c1, req.path, offer.value.0, offer.value.1, later, p);
    }
  }

  lemma GetOrigin(c: Cache, path: string, now: int, p: string)
    requires p in Get(c, path, now).0.entries
    ensures p in c.entries && Get(c, path, now).0.entries[p] == c.entries[p]
  {
  }

  lemma OfferOrigin(c: Cache, path: string, status: int, body: string, now: int, p: string)
    requires Valid(c) && p in Put(c, path, status, body, now).0.entries
    ensures var (after, stored) := Put(c, path, status, body, now);
      || (p in c.entries && after.entries[p] == c.entries[p])
      || (p == path && stored && after.entries[p].storedAt == now
          && after.entries[p].status == status && after.entries[p].body == body)
  {
    PutIsExact(c, path, status, body, now);
    if Admits(c, path, status, body) {
      Runs.PutOrigin(c, path, status, body, now, p);
    } else {
      PutRefused(c, path, status, body, now);
    }
  }

  /** A success held after a call was held before, or the call was a GET that stored it. */
  lemma SuccessOrigin(c: Cache, w: World, req: Request, caller: Caller, now: int, later: int, p: string)
    requires Valid(c) && p in Call(c, w, req, caller, now, later).cache.entries
    requires IsSuccess(Call(c, w, req, caller, now, later).cache.entries[p].status)
    ensures var r := Call(c, w, req, caller, now, later); var e := r.cache.entries[p];
      || (p in c.entries && e == c.entries[p])
      || (req == Fetch(p) && r.served == Observed && r.stored && e.storedAt == later
          && Live(w, Fetch(p), caller).offer == Some((e.status, e.body)))
  {
    CallOrigin(c, w, req, caller, now, later, p);
    if req.Post? {
      PostsAreLive(c, w, req, caller, now, later);
    }
  }

  /** Step i is a GET of the path that the server answered with this entry. */
  ghost predicate CameFromGet(w: World, steps: seq<Step>, i: nat, p: string, e: Entry) {
    && i < |steps| && steps[i].Calling? && steps[i].req == Fetch(p)
    && CallAt(w, steps, i).served == Observed && CallAt(w, steps, i).stored
    && Live(w, Fetch(p), steps[i].caller).offer == Some((e.status, e.body)) && e.storedAt == steps[i].later
  }

  lemma CameEarlier(w: World, steps: seq<Step>, i: nat, p: string, e: Entry)
    requires steps != [] && CameFromGet(w, steps[..|steps| - 1], i, p, e)
    ensures CameFromGet(w, steps, i, p, e)
  {
    assert steps[..|steps| - 1][..i] == steps[..i];
  }

  /** Every success held at the end of a session was stored by a GET of that path, which
      the server answered with that status and body. */
  lemma {:induction false} SuccessesComeFromGets(w: World, steps: seq<Step>, p: string) returns (i: nat)
    requires Proper(steps) && p in CacheAfter(w, steps).entries && IsSuccess(CacheAfter(w, steps).entries[p].status)
    ensures CameFromGet(w, steps, i, p, CacheAfter(w, steps).entries[p])
  {
    var before, last := steps[..|steps| - 1], steps[|steps| - 1];
    var c := CacheAfter(w, before);
    SessionsAreValid(w, before);
    if last.Setting? {
      Runs.QuietOrigin(c, last.op, p);
    } else {
      SuccessOrigin(c, w, last.req, last.caller, last.now, last.later, p);
    }
    if p in c.entries && CacheAfter(w, steps).entries[p] == c.entries[p] {
      i := SuccessesComeFromGets(w, before, p);
      CameEarlier(w, steps, i, p, c.entries[p]);
    } else {
      i := |steps| - 1;
    }
  }

  /** What the observers have counted. */
  datatype Ledger = Ledger(bodyHits: nat, absentHits: nat, observed: nat, misses: nat) {
    function Count(r: CallResult): Ledger {
      Ledger(
        bodyHits + (if r.served.BodyHit? then 1 else 0),
        absentHits + (if r.served.AbsentHit? then 1 else 0),
        observed + (if r.served.Observed? then 1 else 0),
        misses + (if r.stored then 1 else 0))
    }
  }

  function Accounts(w: World, steps: seq<Step>): Ledger {
    if steps == [] then Ledger(0, 0, 0, 0)
    else if steps[|steps| - 1].Setting? then Accounts(w, steps[..|steps| - 1])
    else Accounts(w, steps[..|steps| - 1]).Count(CallAt(w, steps, |steps| - 1))
  }

  function Calls(steps: seq<Step>): nat {
    if steps == [] then 0 else Calls(steps[..|steps| - 1]) + (if steps[|steps| - 1].Calling? then 1 else 0)
  }

  /** Did step i put a new entry into the cache? */
  predicate Stored(w: World, steps: seq<Step>, i: nat)
    requires i < |steps|
  {
    && steps[i].Calling?
    && steps[i].req.path in CacheAfter(w, steps[..i + 1]).entries
    && CallAt(w, steps, i).served == Observed
    && Live(w, steps[i].req, steps[i].caller).offer.Some?
    && var (status, body) := Live(w, steps[i].req, steps[i].caller).offer.value;
       Admits(CacheAfter(w, steps[..i]), steps[i].req.path, status, body)
  }

  function EverStored(w: World, steps: seq<Step>, n: nat): nat
    requires n <= |steps|
  {
    if n == 0 then 0 else EverStored(w, steps, n - 1) + (if Stored(w, steps, n - 1) then 1 else 0)
  }

  /** A call stores an entry exactly when it asks the server and what it then offers is
      admitted. */
  lemma CallStores(c: Cache, w: World, req: Request, caller: Caller, now: int, later: int)
    requires Valid(c)
    ensures var (r, offer) := (Call(c, w, req, caller, now, later), Live(w, req, caller).offer);
      && (r.stored <==> r.served == Observed && offer.Some? && Admits(c, req.path, offer.value.0, offer.value.1))
      && (r.stored ==> req.path in r.cache.entries)
  {
    var c1 := Get(c, req.path, now).0;
    GetValid(c, req.path, now);
    var offer := Live(w, req, caller).offer;
    if offer.Some? {
      PutIsExact(c1, req.path, offer.value.0, offer.value.1, later);
      SameAdmission(c, req.path, now, offer.value.0, offer.value.1);
    }
  }

  lemma SameAdmission(c: Cache, path: string, now: int, status: int, body: string)
    ensures Admits(Get(c, path, now).0, path, status, body) <==> Admits(c, path, status, body)
  {
  }

  lemma StoredIsCounted(w: World, steps: seq<Step>, i: nat)
    requires i < |steps| && steps[i].Calling?
    ensures CallAt(w, steps, i).stored <==> Stored(w, steps, i)
  {
    var c, step := CacheAfter(w, steps[..i]), steps[i];
    SessionsAreValid(w, steps[..i]);
    assert steps[..i + 1][..i] == steps[..i];
    assert CacheAfter(w, steps[..i + 1]) == CallAt(w, steps, i).cache;
    CallStores(c, w, step.req, step.caller, step.now, step.later);
  }

  /** Is a held 404, or another held answer, replayed at step i? */
  predicate ReplayedAt(w: World, steps: seq<Step>, i: nat, absent: bool)
    requires i < |steps|
  {
    && steps[i].Calling?
    && var c := CacheAfter(w, steps[..i]);
       && Holds(c, steps[i].req.path, steps[i].now)
       && var status := c.entries[steps[i].req.path].status;
          if absent then status == 404 else status != 404 && steps[i].req.Fetch?
  }

  function EverReplayed(w: World, steps: seq<Step>, n: nat, absent: bool): nat
    requires n <= |steps|
  {
    if n == 0 then 0 else EverReplayed(w, steps, n - 1, absent) + (if ReplayedAt(w, steps, n - 1, absent) then 1 else 0)
  }

  lemma ServedAt(w: World, steps: seq<Step>, i: nat)
    requires i < |steps| && steps[i].Calling?
    ensures CallAt(w, steps, i).served == BodyHit <==> ReplayedAt(w, steps, i, false)
    ensures CallAt(w, steps, i).served == AbsentHit <==> ReplayedAt(w, steps, i, true)
  {
    CachedReply(CacheAfter(w, steps[..i]), w, steps[i].req, steps[i].caller, steps[i].now, steps[i].later);
  }

  /** In every session, body hits and absent hits are the replays of either kind, they and
      the observed requests are together exactly the calls, and the misses are exactly the
      entries ever stored. */
  lemma {:induction false} AccountsBalance(w: World, steps: seq<Step>)
    ensures var a := Accounts(w, steps);
      a.bodyHits + a.absentHits + a.observed == Calls(steps) && a.misses == EverStored(w, steps, |steps|)
    ensures var a := Accounts(w, steps);
      a.bodyHits == EverReplayed(w, steps, |steps|, false) && a.absentHits == EverReplayed(w, steps, |steps|, true)
  {
    if steps == [] {
    } else {
      var n := |steps| - 1;
      AccountsBalance(w, steps[..n]);
      SamePast(w, steps[..n], steps, n);
      if steps[n].Calling? {
        StoredIsCounted(w, steps, n);
        ServedAt(w, steps, n);
      }
    }
  }

  lemma {:induction false} SamePast(w: World, before: seq<Step>, steps: seq<Step>, n: nat)
    requires n <= |before| && before <= steps
    ensures EverStored(w, before, n) == EverStored(w, steps, n)
    ensures forall absent :: EverReplayed(w, before, n, absent) == EverReplayed(w, steps, n, absent)
  {
    if n == 0 {
    } else {
      SamePast(w, before, steps, n - 1);
      assert before[..n - 1] == steps[..n - 1] && before[..n] == steps[..n];
    }
  }

  /** The replies of a session. */
  function Replies(w: World, steps: seq<Step>): seq<Reply> {
    if steps == [] then [] else
    var before := Replies(w, steps[..|steps| - 1]);
    if steps[|steps| - 1].Calling? then before + [CallAt(w, steps, |steps| - 1).reply] else before
  }

  lemma {:induction false} RepliesAreCalls(w: World, steps: seq<Step>)
    ensures |Replies(w, steps)| == Calls(steps)
  {
    if steps == [] {
    } else {
      RepliesAreCalls(w, steps[..|steps| - 1]);
    }
  }

  lemma SessionMore(w: World, steps: seq<Step>, i: nat)
    requires i < |steps|
    ensures var before, after := steps[..i], steps[..i + 1];
      if steps[i].Setting? then
        && CacheAfter(w, after) == Runs.Apply(CacheAfter(w, before), steps[i].op)
        && Accounts(w, after) == Accounts(w, before) && Replies(w, after) == Replies(w, before)
      else
        && CacheAfter(w, after) == CallAt(w, steps, i).cache
        && Accounts(w, after) == Accounts(w, before).Count(CallAt(w, steps, i))
        && Replies(w, after) == Replies(w, before) + [CallAt(w, steps, i).reply]
  {
    var after := steps[..i + 1];
    assert after[..i] == steps[..i] && after[i] == steps[i];
  }

  /** The request would make the retry loop panic. */
  predicate Crashes(w: World, req: Request) {
    |w.server(req)| > 38 && FirstDeciding(req.Verb(), w.server(req), 0) >= 38
  }

  /** What a held answer is replayed as. */
  function Replayed(w: World, req: Request, caller: Caller, entry: Entry): Reply {
    if entry.status == 404 then Error(req.path, Reported(entry.body), 404, false)
    else Unmarshal(w, req.path, entry.body, entry.status, caller)
  }

  lemma HitServes(c: Cache, entry: Entry, w: World, req: Request, caller: Caller, later: int)
    requires entry.status == 404 || req.Fetch?
    ensures ServedFrom(c, Some(entry), w, req, caller, later)
         == CallResult(c, Replayed(w, req, caller, entry), if entry.status == 404 then AbsentHit else BodyHit, false)
  {
  }

  lemma NoHitAsks(c: Cache, hit: Option<Entry>, w: World, req: Request, caller: Caller, later: int)
    requires hit.Some? ==> hit.value.status != 404 && !req.Fetch?
    ensures ServedFrom(c, hit, w, req, caller, later).served == Observed
  {
  }

  lemma AskServes(c: Cache, hit: Option<Entry>, w: World, req: Request, caller: Caller, later: int, r: CallResult)
    requires hit.Some? ==> hit.value.status != 404 && !req.Fetch?
    requires r == Offered(c, req.path, Live(w, req, caller), later)
    ensures ServedFrom(c, hit, w, req, caller, later) == r
  {
  }

  // ----- The client object -----

  class ApiClient {
    const cache: ResponseCache
    var bodyHits: nat
    var absentHits: nat
    var observed: nat
    var misses: nat

    constructor ()
      ensures fresh(cache) && cache.State() == Empty() && Valid(cache.State())
      ensures Counts() == Ledger(0, 0, 0, 0)
    {
      cache := new ResponseCache();
      bodyHits, absentHits, observed, misses := 0, 0, 0, 0;
    }

    ghost function Counts(): Ledger
      reads this
    {
      Ledger(bodyHits, absentHits, observed, misses)
    }

    /** Where the client is after these steps. */
    ghost predicate Stands(w: World, steps: seq<Step>)
      reads this, cache
    {
      Valid(cache.State()) && cache.State() == CacheAfter(w, steps) && Counts() == Accounts(w, steps)
    }

    /** One logical call: the cache first, then the server, with retries. Nothing comes back
        exactly when the server is asked and the retry loop panics; the call has then been
        counted as observed and has only looked up the cache. */
    method Do(w: World, req: Request, caller: Caller, now: int, later: int, draw: (int, nat) -> nat) returns (reply: Option<Reply>)
      requires Valid(cache.State())
      requires forall n, k :: n > 0 ==> draw(n, k) < n
      modifies this, cache
      ensures var r := Call(old(cache.State()), w, req, caller, now, later);
        && (reply.None? <==> r.served == Observed && Crashes(w, req))
        && (reply.Some? ==> reply.value == r.reply && cache.State() == r.cache && Counts() == old(Counts()).Count(r))
      ensures reply.None? ==> cache.State() == Get(old(cache.State()), req.path, now).0
      ensures reply.None? ==> Counts() == old(Counts()).(observed := old(observed) + 1)
      ensures Valid(cache.State())
    {
      var hit := cache.Lookup(req.path, now);
      reply := Answer(w, req, caller, hit, later, draw);
    }

    method Answer(w: World, req: Request, caller: Caller, hit: Option<Entry>, later: int, draw: (int, nat) -> nat) returns (reply: Option<Reply>)
      requires Valid(cache.State())
      requires forall n, k :: n > 0 ==> draw(n, k) < n
      modifies this, cache
      ensures var r := ServedFrom(old(cache.State()), hit, w, req, caller, later);
        && (reply.None? <==> r.served == Observed && Crashes(w, req))
        && (reply.Some? ==> reply.value == r.reply && cache.State() == r.cache && Counts() == old(Counts()).Count(r))
      ensures reply.None? ==> cache.State() == old(cache.State()) && Counts() == old(Counts()).(observed := old(observed) + 1)
      ensures Valid(cache.State())
    {
      ghost var c, was := cache.State(), Counts();
      if hit.Some? && (hit.value.status == 404 || req.Fetch?) {
        HitServes(c, hit.value, w, req, caller, later);
        var replayed := Replay(w, req, caller, hit.value);
        return Some(replayed);
      }
      NoHitAsks(c, hit, w, req, caller, later);
      observed := observed + 1;
      reply := Ask(w, req, caller, later, draw);
      if reply.Some? {
        ghost var r := CallResult(cache.State(), reply.value, Observed, misses == was.misses + 1);
        AskServes(c, hit, w, req, caller, later, r);
        assert Counts() == was.Count(r);
      }
    }

    /** Answers with what the cache holds. */
    method Replay(w: World, req: Request, caller: Caller, entry: Entry) returns (reply: Reply)
      requires entry.status == 404 || req.Fetch?
      modifies this`bodyHits, this`absentHits
      ensures reply == Replayed(w, req, caller, entry)
      ensures Counts() == if entry.status == 404
        then old(Counts()).(absentHits := old(absentHits) + 1) else old(Counts()).(bodyHits := old(bodyHits) + 1)
    {
      if entry.status == 404 {
        absentHits := absentHits + 1;
        return Error(req.path, Reported(entry.body), 404, false);
      }
      bodyHits := bodyHits + 1;
      return Unmarshal(w, req.path, entry.body, entry.status, caller);
    }

    /** The call proper: attempts until one decides, then the response is read. */
    method Ask(w: World, req: Request, caller: Caller, later: int, draw: (int, nat) -> nat) returns (reply: Option<Reply>)
      requires Valid(cache.State())
      requires forall n, k :: n > 0 ==> draw(n, k) < n
      modifies this`misses, cache
      ensures reply.None? <==> Crashes(w, req)
      ensures reply.None? ==> cache.State() == old(cache.State()) && misses == old(misses)
      ensures reply.Some? ==>
        CallResult(cache.State(), reply.value, Observed, misses == old(misses) + 1)
        == Offered(old(cache.State()), req.path, Live(w, req, caller), later)
      ensures old(misses) <= misses <= old(misses) + 1 && Valid(cache.State())
    {
      var outcome, _, _ := RunAttempts(req.Verb(), w.server(req), draw);
      if outcome.Crashed? {
        return None;
      }
      if outcome.Exhausted? {
        return Some(Error(req.path, RetriesUsedUp(outcome.cause), 0, false));
      }
      var read := ReadResponse(w, req, outcome.status, outcome.reply, caller, later);
      reply := Some(read);
    }

    /** Changes a TTL or a rule. */
    method Configure(op: Runs.Op)
      requires Valid(cache.State()) && !op.Gotten? && !op.Offered?
      modifies cache
      ensures cache.State() == Runs.Apply(old(cache.State()), op) && Valid(cache.State())
    {
      Runs.ApplyValid(cache.State(), op);
      match op
      case TtlSet(path, ttl) => cache.SetTTL(path, ttl);
      case AbsentTtlSet(path, ttl) => cache.SetAbsentTTL(path, ttl);
      case AdmissionSet(path, rule) => cache.SetAdmissionRule(path, rule);
      case BodyTtlSet(path, rule) => cache.SetBodyTTLRule(path, rule);
    }

    method ReadResponse(w: World, req: Request, status: int, payload: Payload, caller: Caller, later: int) returns (reply: Reply)
      requires Valid(cache.State())
      modifies this`misses, cache
      ensures CallResult(cache.State(), reply, Observed, misses == old(misses) + 1)
           == Offered(old(cache.State()), req.path, Read(w, req, status, payload, caller), later)
      ensures old(misses) <= misses <= old(misses) + 1 && Valid(cache.State())
      ensures Means(w, req, status, payload, caller, Reading(reply, Read(w, req, status, payload, caller).offer))
    {
      ReadMeans(w, req, status, payload, caller);
      if payload.Unreadable? {
        return Error(req.path, ReadFailed(payload.cause), status, false);
      }
      if |payload.bytes| > caller.limit {
        return Error(req.path, TooLarge(caller.limit), status, false);
      }
      if status < 200 || status >= 300 {
        var text := w.shorten(payload.bytes);
        var stored := cache.Store(req.path, status, text, later);
        if stored {
          misses := misses + 1;
        }
        return Error(req.path, Reported(text), status, false);
      }
      if req.path == NDP_PATH && w.blank(payload.bytes) {
        return Error(req.path, EmptyNdp, status, false);
      }
      reply := Unmarshal(w, req.path, payload.bytes, status, caller);
      if reply.Value? && req.Fetch? {
        var stored := cache.Store(req.path, status, payload.bytes, later);
        if stored {
          misses := misses + 1;
        }
      }
    }
  }

  /** A whole session through one client, up to a panic if there is one: the replies are
      those of the model, and the client's own counters balance. Body hits, absent hits and
      observed requests add up to the calls made, and misses are the entries ever stored. */
  method RunSession(client: ApiClient, w: World, steps: seq<Step>, draw: (int, nat) -> nat)
    returns (replies: seq<Reply>, done: nat)
    requires client.cache.State() == Empty() && client.Counts() == Ledger(0, 0, 0, 0) && Valid(client.cache.State())
    requires Proper(steps) && forall n, k :: n > 0 ==> draw(n, k) < n
    modifies client, client.cache
    ensures done <= |steps| && replies == Replies(w, steps[..done]) && |replies| == Calls(steps[..done])
    ensures done < |steps| ==> steps[done].Calling? && Crashes(w, steps[done].req)
    ensures client.bodyHits + client.absentHits + client.observed == |replies| + if done < |steps| then 1 else 0
    ensures client.misses == EverStored(w, steps[..done], done)
    ensures client.bodyHits == EverReplayed(w, steps[..done], done, false)
    ensures client.absentHits == EverReplayed(w, steps[..done], done, true)
  {
    replies, done := [], 0;
    while done < |steps|
      invariant done <= |steps| && client.Stands(w, steps[..done])
      invariant replies == Replies(w, steps[..done])
    {
      Balanced(w, steps[..done]);
      var said, ok := SessionStep(client, w, steps, done, draw);
      if !ok {
        return;
      }
      replies := replies + said;
      done := done + 1;
    }
    Balanced(w, steps[..done]);
  }

  /** One step of a session, and what it replied. */
  method SessionStep(client: ApiClient, w: World, steps: seq<Step>, i: nat, draw: (int, nat) -> nat)
    returns (said: seq<Reply>, ok: bool)
    requires i < |steps| && client.Stands(w, steps[..i])
    requires Proper(steps) && forall n, k :: n > 0 ==> draw(n, k) < n
    modifies client, client.cache
    ensures ok ==> client.Stands(w, steps[..i + 1]) && Replies(w, steps[..i + 1]) == Replies(w, steps[..i]) + said
    ensures !ok ==> steps[i].Calling? && Crashes(w, steps[i].req)
    ensures !ok ==> var a := Accounts(w, steps[..i]); client.Counts() == a.(observed := a.observed + 1)
  {
    SessionMore(w, steps, i);
    said, ok := [], true;
    match steps[i]
    case Setting(op) =>
      client.Configure(op);
    case Calling(req, caller, now, later) =>
      var reply := client.Do(w, req, caller, now, later, draw);
      if reply.Some? {
        said := [reply.value];
      } else {
        ok := false;
      }
  }

  lemma Balanced(w: World, steps: seq<Step>)
    ensures var a := Accounts(w, steps);
      && a.bodyHits + a.absentHits + a.observed == |Replies(w, steps)| == Calls(steps)
      && a.misses == EverStored(w, steps, |steps|)
      && a.bodyHits == EverReplayed(w, steps, |steps|, false) && a.absentHits == EverReplayed(w, steps, |steps|, true)
  {
    AccountsBalance(w, steps);
    RepliesAreCalls(w, steps);
  }
}
