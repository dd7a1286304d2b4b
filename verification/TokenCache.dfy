// The authentication middleware of security/security.go: a cache of verified tokens with a
// time to live in front of a token verifier, swept once per time to live.
module TokenCache {
  import opened Options

  datatype Account = Account(id: string, name: string)

  datatype Claims = Claims(subject: string, email: string, name: string, issuer: string, account: Option<Account>)

  // The verifier's answer: claims, which may be nil, or an error.
  datatype Verdict = Verified(claims: Option<Claims>) | Invalid

  // Served calls the next handler with the claims in its context.
  datatype Response = Rejected | Served(claims: Option<Claims>)

  // Times are integers on one monotone clock.
  datatype CachedClaims = CachedClaims(claims: Option<Claims>, expiresAt: int)

  type Cache = map<string, CachedClaims>

  const FIVE_MINUTES: int := 300_000_000_000

  function EffectiveTTL(cacheTTL: int): int {
    if cacheTTL == 0 then FIVE_MINUTES else cacheTTL
  }

  function Lookup(cache: Cache, token: string, now: int): Option<Claims> {
    if token in cache && now < cache[token].expiresAt then cache[token].claims else None
  }

  function Swept(cache: Cache, now: int): Cache {
    map token | token in cache && !(now > cache[token].expiresAt) :: cache[token]
  }

  predicate IsBearer(header: string) {
    "Bearer " <= header
  }

  function TokenOf(header: string): string {
    if IsBearer(header) then header[|"Bearer "|..] else header
  }

  // A header with a token is "Bearer " and the token, and no other header has one.
  lemma BearerMeaning(header: string)
    ensures IsBearer(header) <==> |header| >= 7 && header[..7] == "Bearer "
    ensures |header| >= 7 && header[..7] == "Bearer " ==> TokenOf(header) == header[7..]
  {
  }

  lemma BearerToken(token: string)
    ensures IsBearer("Bearer " + token) && TokenOf("Bearer " + token) == token
  {
    assert ("Bearer " + token)[7..] == token;
  }

  // --- The middleware, one request at a time ---

  class Middleware {
    const ttl: int
    var cache: Cache

    constructor (cacheTTL: int)
      requires cacheTTL >= 0
      ensures ttl == (if cacheTTL == 0 then 300_000_000_000 else cacheTTL) && ttl > 0 && cache == map[]
    {
      ttl := if cacheTTL == 0 then FIVE_MINUTES else cacheTTL;
      cache := map[];
    }

    // One tick of the background cleanup.
    method Sweep(now: int)
      modifies this
      ensures cache == Swept(old(cache), now)
      ensures forall token :: token in cache <==> token in old(cache) && now <= old(cache)[token].expiresAt
      ensures forall token :: token in cache ==> cache[token] == old(cache)[token]
    {
      var todo := cache.Keys;
      while todo != {}
        invariant todo <= old(cache).Keys
        invariant cache == map k | k in old(cache) && (k in todo || !(now > old(cache)[k].expiresAt)) :: old(cache)[k]
      {
        var k :| k in todo;
        todo := todo - {k};
        if now > cache[k].expiresAt {
          cache := cache - {k};
        }
      }
    }

    method Store(token: string, claims: Option<Claims>, now: int)
      modifies this
      ensures cache == old(cache)[token := CachedClaims(claims, now + ttl)]
    {
      cache := cache[token := CachedClaims(claims, now + ttl)];
    }

    // verdict is what the verifier would answer; the clock is read at lookup and at store.
    method ServeHTTP(header: string, verdict: Verdict, lookupTime: int, storeTime: int) returns (r: Response)
      modifies this
      ensures |header| < 7 || header[..7] != "Bearer " ==> r == Rejected && cache == old(cache)
      ensures |header| >= 7 && header[..7] == "Bearer " ==>
        var token, before := header[7..], old(cache);
        if token in before && lookupTime < before[token].expiresAt && before[token].claims.Some?
        then r == Served(before[token].claims) && cache == before
        else match verdict
          case Invalid => r == Rejected && cache == before
          case Verified(claims) =>
            r == Served(claims) && cache == before[token := CachedClaims(claims, storeTime + ttl)]
    {
      BearerMeaning(header);
      if !IsBearer(header) {
        return Rejected;
      }
      var token := TokenOf(header);
      var claims := Lookup(cache, token, lookupTime);
      if claims.Some? {
        return Served(claims);
      }
      if verdict.Invalid? {
        return Rejected;
      }
      Store(token, verdict.claims, storeTime);
      return Served(verdict.claims);
    }
  }

  // --- Sweeping is invisible ---

  // Stores and sweeps in the order of time.
  datatype CacheOp = StoreOp(token: string, claims: Option<Claims>, at: int) | SweepOp(at: int)

  function CacheAfter(ttl: int, ops: seq<CacheOp>): Cache {
    if ops == [] then map[]
    else
      var before := CacheAfter(ttl, ops[..|ops| - 1]);
      match ops[|ops| - 1]
      case StoreOp(token, claims, at) => before[token := CachedClaims(claims, at + ttl)]
      case SweepOp(at) => Swept(before, at)
  }

  function StoresOnly(ops: seq<CacheOp>): seq<CacheOp> {
    if ops == [] then []
    else
      var op := ops[|ops| - 1];
      StoresOnly(ops[..|ops| - 1]) + if op.StoreOp? then [op] else []
  }

  // No lookup at any later time can tell whether the cache was ever swept.
  lemma {:induction false} SweepsInvisible(ttl: int, ops: seq<CacheOp>, token: string, now: int)
    requires forall i :: 0 <= i < |ops| ==> ops[i].at <= now
    ensures Lookup(CacheAfter(ttl, ops), token, now) == Lookup(CacheAfter(ttl, StoresOnly(ops)), token, now)
  {
    if ops != [] {
      var n := |ops| - 1;
      assert ops[n].at <= now;
      SweepsInvisible(ttl, ops[..n], token, now);
      var kept := StoresOnly(ops[..n]);
      if ops[n].StoreOp? {
        assert (kept + [ops[n]])[..|kept|] == kept;
      } else {
        assert kept + [] == kept;
        SweepInvisible(CacheAfter(ttl, ops[..n]), ops[n].at, token, now);
      }
    }
  }

  lemma SweepInvisible(cache: Cache, at: int, token: string, now: int)
    requires at <= now
    ensures Lookup(Swept(cache, at), token, now) == Lookup(cache, token, now)
  {
  }

  // --- Requests, sweeps and the clock interleaved ---

  // A request between its lookup, its verification and its store; the response records whether
  // it came from the cache and when it was decided.
  datatype Phase =
    | Arrived
    | Verifying(token: string)
    | Storing(token: string, claims: Option<Claims>)
    | Done(response: Response, fromCache: bool, at: int)

  datatype Request = Request(header: string, phase: Phase)

  // answers and stores record what the verifier has said and what has been put into the cache.
  datatype Stored = Stored(token: string, claims: Option<Claims>, at: int)

  datatype World = World(
    ttl: int, clock: int, lastSweep: int, cache: Cache, requests: map<nat, Request>,
    answers: set<(string, Verdict)>, stores: set<Stored>)

  datatype Step =
    | Advance(ticks: nat)
    | Arrive(id: nat, header: string)
    | LookUp(id: nat)
    | Verify(id: nat, verdict: Verdict)
    | Store(id: nat)
    | Sweep

  ghost predicate Start(w: World, cacheTTL: int) {
    cacheTTL >= 0 && w == World(EffectiveTTL(cacheTTL), w.clock, w.clock, map[], map[], {}, {})
  }

  // The outcome of the lookup: an answer at once, or a token to verify.
  function LookedUp(w: World, header: string): Phase {
    if !IsBearer(header) then Done(Rejected, false, w.clock)
    else
      var hit := Lookup(w.cache, TokenOf(header), w.clock);
      if hit.Some? then Done(Served(hit), true, w.clock) else Verifying(TokenOf(header))
  }

  ghost predicate Next(w: World, s: Step, w': World) {
    match s
    case Advance(ticks) => w' == w.(clock := w.clock + ticks)
    case Arrive(id, header) =>
      id !in w.requests && w' == w.(requests := w.requests[id := Request(header, Arrived)])
    case LookUp(id) =>
      && id in w.requests && w.requests[id].phase.Arrived?
      && var r := w.requests[id];
      && w' == w.(requests := w.requests[id := r.(phase := LookedUp(w, r.header))])
    case Verify(id, verdict) =>
      && id in w.requests && w.requests[id].phase.Verifying?
      && var r := w.requests[id];
      && var phase := if verdict.Invalid? then Done(Rejected, false, w.clock)
                      else Storing(r.phase.token, verdict.claims);
      && w' == w.(requests := w.requests[id := r.(phase := phase)], answers := w.answers + {(r.phase.token, verdict)})
    case Store(id) =>
      && id in w.requests && w.requests[id].phase.Storing?
      && var r := w.requests[id];
      && w' == w.(requests := w.requests[id := r.(phase := Done(Served(r.phase.claims), false, w.clock))],
                  cache := w.cache[r.phase.token := CachedClaims(r.phase.claims, w.clock + w.ttl)],
                  stores := w.stores + {Stored(r.phase.token, r.phase.claims, w.clock)})
    case Sweep => w' == w.(cache := Swept(w.cache, w.clock), lastSweep := w.clock)
  }

  ghost predicate CanStep(w: World, w': World) {
    exists s :: Next(w, s, w')
  }

  ghost predicate IsRun(run: seq<World>, cacheTTL: int) {
    && run != [] && Start(run[0], cacheTTL)
    && forall i :: 0 < i < |run| ==> CanStep(run[i - 1], run[i])
  }

  // --- The invariant ---

  // Claims that the verifier returned for the token and that were stored at the given time.
  ghost predicate StoredAt(w: World, token: string, claims: Option<Claims>, at: int) {
    Stored(token, claims, at) in w.stores && (token, Verified(claims)) in w.answers && at <= w.clock
  }

  // Where a request stands and why.
  ghost predicate RequestInv(w: World, r: Request) {
    match r.phase
    case Arrived => true
    case Verifying(token) => IsBearer(r.header) && token == TokenOf(r.header)
    case Storing(token, claims) =>
      IsBearer(r.header) && token == TokenOf(r.header) && (token, Verified(claims)) in w.answers
    case Done(Rejected, fromCache, _) =>
      !fromCache && (!IsBearer(r.header) || (TokenOf(r.header), Invalid) in w.answers)
    case Done(Served(claims), fromCache, at) =>
      && IsBearer(r.header) && (TokenOf(r.header), Verified(claims)) in w.answers && at <= w.clock
      && (fromCache ==> ServedFromCache(w, TokenOf(r.header), claims, at))
  }

  ghost predicate ServedFromCache(w: World, token: string, claims: Option<Claims>, at: int) {
    claims.Some? && exists s :: StoredAt(w, token, claims, s) && s <= at < s + w.ttl
  }

  ghost predicate Inv(w: World) {
    && w.ttl > 0 && w.lastSweep <= w.clock
    && (forall token :: token in w.cache ==>
          && StoredAt(w, token, w.cache[token].claims, w.cache[token].expiresAt - w.ttl)
          && w.lastSweep <= w.cache[token].expiresAt)
    && (forall id :: id in w.requests ==> RequestInv(w, w.requests[id]))
  }

  lemma RequestInvGrows(w: World, w': World, r: Request)
    requires RequestInv(w, r)
    requires w'.ttl == w.ttl && w.clock <= w'.clock && w.answers <= w'.answers && w.stores <= w'.stores
    ensures RequestInv(w', r)
  {
    if r.phase.Done? && r.phase.fromCache && r.phase.response.Served? {
      var token, claims, at := TokenOf(r.header), r.phase.response.claims, r.phase.at;
      var s :| StoredAt(w, token, claims, s) && s <= at < s + w.ttl;
      assert StoredAt(w', token, claims, s);
    }
  }

  lemma StepKeepsInv(w: World, s: Step, w': World)
    requires Inv(w) && Next(w, s, w')
    ensures Inv(w')
  {
    forall id | id in w'.requests
      ensures RequestInv(w', w'.requests[id])
    {
      if id in w.requests {
        RequestInvGrows(w, w', w.requests[id]);
      }
      if s.LookUp? && s.id == id {
        LookedUpInv(w, w.requests[id].header, w');
      }
    }
    forall token | token in w'.cache
      ensures StoredAt(w', token, w'.cache[token].claims, w'.cache[token].expiresAt - w'.ttl)
      ensures w'.lastSweep <= w'.cache[token].expiresAt
    {
      if token in w.cache {
        assert StoredAt(w, token, w.cache[token].claims, w.cache[token].expiresAt - w.ttl);
      }
      if s.Store? {
        assert RequestInv(w, w.requests[s.id]);
      }
    }
  }

  lemma LookedUpInv(w: World, header: string, w': World)
    requires Inv(w)
    requires w'.ttl == w.ttl && w.clock == w'.clock && w.answers == w'.answers && w.stores == w'.stores
    ensures RequestInv(w', Request(header, LookedUp(w, header)))
  {
    var token := TokenOf(header);
    if IsBearer(header) && Lookup(w.cache, token, w.clock).Some? {
      var entry := w.cache[token];
      assert StoredAt(w, token, entry.claims, entry.expiresAt - w.ttl);
      assert StoredAt(w', token, entry.claims, entry.expiresAt - w.ttl);
    }
  }

  lemma {:induction false} RunKeepsInv(run: seq<World>, cacheTTL: int, i: nat)
    requires IsRun(run, cacheTTL) && i < |run|
    ensures Inv(run[i]) && run[i].ttl == EffectiveTTL(cacheTTL)
  {
    if i > 0 {
      RunKeepsInv(run, cacheTTL, i - 1);
      assert CanStep(run[i - 1], run[i]);
      var s :| Next(run[i - 1], s, run[i]);
      StepKeepsInv(run[i - 1], s, run[i]);
    }
  }

  // --- Main results ---

  // A request served from the cache carries claims that the verifier returned for exactly its
  // token and that were stored less than one time to live before.
  lemma CacheHitsAreRecent(run: seq<World>, cacheTTL: int, i: nat, id: nat)
    requires IsRun(run, cacheTTL) && i < |run| && id in run[i].requests
    requires run[i].requests[id].phase.Done? && run[i].requests[id].phase.fromCache
    ensures var w, r := run[i], run[i].requests[id];
      && r.phase.response.Served? && r.phase.response.claims.Some?
      && |r.header| >= 7 && r.header[..7] == "Bearer "
      && exists storedAt ::
           && Stored(r.header[7..], r.phase.response.claims, storedAt) in w.stores
           && (r.header[7..], Verified(r.phase.response.claims)) in w.answers
           && storedAt <= r.phase.at < storedAt + (if cacheTTL == 0 then 300_000_000_000 else cacheTTL)
  {
    RunKeepsInv(run, cacheTTL, i);
    var w, r := run[i], run[i].requests[id];
    assert RequestInv(w, r);
    BearerMeaning(r.header);
    var s :| StoredAt(w, TokenOf(r.header), r.phase.response.claims, s) && s <= r.phase.at < s + w.ttl;
    assert Stored(r.header[7..], r.phase.response.claims, s) in w.stores;
  }

  // A live entry is served without asking the verifier, and no other is.
  lemma LiveEntriesAreServed(w: World, id: nat, token: string, w': World)
    requires Next(w, LookUp(id), w') && w.requests[id].header == "Bearer " + token
    requires token in w.cache && w.cache[token].claims.Some?
    ensures if w.clock < w.cache[token].expiresAt
            then w'.requests[id].phase == Done(Served(w.cache[token].claims), true, w.clock)
            else w'.requests[id].phase == Verifying(token)
  {
    BearerToken(token);
  }

  // A verified answer is stored for one time to live from then.
  lemma StoredForOneTTL(run: seq<World>, cacheTTL: int, i: nat, id: nat, w': World)
    requires IsRun(run, cacheTTL) && i < |run| && Next(run[i], Store(id), w')
    ensures var w := run[i];
      var phase := w.requests[id].phase;
      && w'.requests[id].phase.Done? && w'.requests[id].phase.response == Served(phase.claims)
      && w'.cache == w.cache[phase.token :=
           CachedClaims(phase.claims, w.clock + (if cacheTTL == 0 then 300_000_000_000 else cacheTTL))]
  {
    RunKeepsInv(run, cacheTTL, i);
  }

  // The middleware without a cache, in front of a verifier that always answers the same.
  predicate AnsweredAs(verifier: string -> Verdict, header: string, response: Response) {
    if |header| >= 7 && header[..7] == "Bearer " then
      match verifier(header[7..])
      case Invalid => response == Rejected
      case Verified(claims) => response == Served(claims)
    else response == Rejected
  }

  ghost predicate AnswersBy(w: World, verifier: string -> Verdict) {
    forall token, verdict :: (token, verdict) in w.answers ==> verdict == verifier(token)
  }

  // Against such a verifier every response, cached or not, is that of the uncached middleware.
  lemma CacheIsTransparent(run: seq<World>, cacheTTL: int, i: nat, id: nat, verifier: string -> Verdict)
    requires IsRun(run, cacheTTL) && i < |run| && id in run[i].requests
    requires AnswersBy(run[i], verifier) && run[i].requests[id].phase.Done?
    ensures AnsweredAs(verifier, run[i].requests[id].header, run[i].requests[id].phase.response)
  {
    RunKeepsInv(run, cacheTTL, i);
    assert RequestInv(run[i], run[i].requests[id]);
    BearerMeaning(run[i].requests[id].header);
  }

  // The same for a header with the token t and for any other header.
  lemma BearerIsAnswered(run: seq<World>, cacheTTL: int, i: nat, id: nat, verifier: string -> Verdict)
    requires IsRun(run, cacheTTL) && i < |run| && id in run[i].requests
    requires AnswersBy(run[i], verifier) && run[i].requests[id].phase.Done?
    ensures var header, response := run[i].requests[id].header, run[i].requests[id].phase.response;
      && (forall t, c :: header == "Bearer " + t ==> (response == Served(c) <==> verifier(t) == Verified(c)))
      && (forall t :: header == "Bearer " + t ==> (response == Rejected <==> verifier(t) == Invalid))
      && (|header| < 7 || header[..7] != "Bearer " ==> response == Rejected)
  {
    CacheIsTransparent(run, cacheTTL, i, id, verifier);
    var header, response := run[i].requests[id].header, run[i].requests[id].phase.response;
    forall t | header == "Bearer " + t
      ensures header[7..] == t && header[..7] == "Bearer "
    {
    }
    match response {
      case Rejected =>
      case Served(_) =>
    }
  }

  // While sweeps run on schedule no entry is older than twice the time to live.
  lemma EntriesDieInTime(run: seq<World>, cacheTTL: int, i: nat, token: string)
    requires IsRun(run, cacheTTL) && i < |run| && token in run[i].cache
    requires run[i].clock - run[i].lastSweep <= run[i].ttl
    ensures var storedAt := run[i].cache[token].expiresAt - run[i].ttl;
      && StoredAt(run[i], token, run[i].cache[token].claims, storedAt)
      && run[i].clock - storedAt <= 2 * run[i].ttl
  {
    RunKeepsInv(run, cacheTTL, i);
    var w := run[i];
    assert StoredAt(w, token, w.cache[token].claims, w.cache[token].expiresAt - w.ttl);
  }

  // --- The middleware class at work ---

  datatype Turn = Tick(now: int) | Serve(header: string, lookupTime: int, storeTime: int)

  // Requests and sweeps in any order and at any times get the answers of the middleware without
  // a cache, as long as the verifier always answers the same; None stands for a sweep.
  method ServeAll(cacheTTL: int, verifier: string -> Verdict, turns: seq<Turn>)
    returns (responses: seq<Option<Response>>)
    requires cacheTTL >= 0
    ensures |responses| == |turns|
    ensures forall k, t, c :: 0 <= k < |turns| && turns[k].Serve? && turns[k].header == "Bearer " + t ==>
      (responses[k] == Some(Served(c)) <==> verifier(t) == Verified(c))
    ensures forall k, t :: 0 <= k < |turns| && turns[k].Serve? && turns[k].header == "Bearer " + t ==>
      (responses[k] == Some(Rejected) <==> verifier(t) == Invalid)
    ensures forall k :: 0 <= k < |turns| && turns[k].Serve? ==>
      var header := turns[k].header;
      |header| < 7 || header[..7] != "Bearer " ==> responses[k] == Some(Rejected)
    ensures forall k :: 0 <= k < |turns| && turns[k].Tick? ==> responses[k] == None
  {
    var m := new Middleware(cacheTTL);
    responses := [];
    for i := 0 to |turns|
      invariant fresh(m) && |responses| == i
      invariant forall token :: token in m.cache ==> verifier(token) == Verified(m.cache[token].claims)
      invariant forall k :: 0 <= k < i ==> TurnAnswered(verifier, turns[k], responses[k])
    {
      match turns[i]
      case Tick(now) =>
        m.Sweep(now);
        responses := responses + [None];
      case Serve(header, lookupTime, storeTime) =>
        BearerMeaning(header);
        var r := m.ServeHTTP(header, verifier(TokenOf(header)), lookupTime, storeTime);
        responses := responses + [Some(r)];
    }
    forall k, t | 0 <= k < |turns| && turns[k].Serve? && turns[k].header == "Bearer " + t
      ensures AnsweredAs(verifier, turns[k].header, responses[k].value)
      ensures turns[k].header[..7] == "Bearer " && turns[k].header[7..] == t
    {
      assert TurnAnswered(verifier, turns[k], responses[k]);
    }
  }

  predicate TurnAnswered(verifier: string -> Verdict, turn: Turn, response: Option<Response>) {
    if turn.Tick? then response == None
    else response.Some? && AnsweredAs(verifier, turn.header, response.value)
  }
}
