/** The access-token cache: every run of Get and Invalidate calls, one at a time under the mutex,
    against a server that grants tokens of any lifetime at any speed. */
module TokenManager {
  import opened Common

  const REFRESH_THRESHOLD: Time := 60 * SECOND

  /** A successful fetch: the server issued the token at `issued`, the client read its own clock
      at `received`. */
  datatype Grant = Grant(token: string, expiresIn: Time, issued: Time, received: Time)

  datatype Cache = Cache(token: string, expiresAt: Time)

  const EMPTY := Cache("", 0)

  /** The cached token may be served without a fetch. */
  predicate Usable(c: Cache, now: Time) {
    c.token != "" && now < c.expiresAt - REFRESH_THRESHOLD
  }

  function Filled(g: Grant): Cache {
    Cache(g.token, g.received + g.expiresIn)
  }

  /** One call. A Get starts at `now`; `grant` is what its fetch would bring, None if it fails. */
  datatype Call = Get(now: Time, grant: Option<Grant>) | Invalidate(now: Time)

  function After(c: Cache, call: Call): Cache {
    if call.Invalidate? then EMPTY
    else if Usable(c, call.now) || call.grant.None? then c
    else Filled(call.grant.value)
  }

  class TokenManager {
    var token: string
    var expiresAt: Time

    function Value(): Cache
      reads this
    {
      Cache(token, expiresAt)
    }

    constructor ()
      ensures Value() == EMPTY
    {
      token, expiresAt := "", 0;
    }

    /** Serves the cached token while it has more than a minute left, else fetches; a failed fetch
        changes nothing. */
    method Get(now: Time, grant: Option<Grant>) returns (r: Option<string>, fetched: bool)
      modifies this
      ensures Value() == After(old(Value()), Call.Get(now, grant))
      ensures fetched <==> !Usable(old(Value()), now)
      ensures r == if !fetched then Some(old(token)) else if grant.Some? then Some(grant.value.token) else None
    {
      if token != "" && now < expiresAt - REFRESH_THRESHOLD { return Some(token), false; }
      if grant.None? { return None, true; }
      token := grant.value.token;
      expiresAt := grant.value.received + grant.value.expiresIn;
      return Some(token), true;
    }

    method Invalidate(now: Time)
      modifies this
      ensures Value() == After(old(Value()), Call.Invalidate(now))
    {
      token, expiresAt := "", 0;
    }
  }

  // ----- runs -----------------------------------------------------------------------------

  /** When a call is over: a fetch ends when its answer was received. */
  function EndOf(c: Cache, call: Call): Time {
    if call.Get? && !Usable(c, call.now) && call.grant.Some? then call.grant.value.received else call.now
  }

  /** Calls follow one another on a monotone clock, and a token is issued during its fetch. */
  predicate Possible(c: Cache, clock: Time, run: seq<Call>)
    decreases |run|
  {
    run == [] ||
    (&& clock <= run[0].now
     && (run[0].Get? && run[0].grant.Some? ==>
           run[0].now <= run[0].grant.value.issued <= run[0].grant.value.received)
     && Possible(After(c, run[0]), EndOf(c, run[0]), run[1..]))
  }

  function AfterAll(c: Cache, run: seq<Call>): Cache
    decreases |run|
  {
    if run == [] then c else AfterAll(After(c, run[0]), run[1..])
  }

  /** The latest grant a run fetched since its last Invalidate, if any; `so` is what came before. */
  function Latest(c: Cache, so: Option<Grant>, run: seq<Call>): Option<Grant>
    decreases |run|
  {
    if run == [] then so
    else
      Latest(After(c, run[0]),
             if run[0].Invalidate? then None
             else if !Usable(c, run[0].now) && run[0].grant.Some? then run[0].grant else so,
             run[1..])
  }

  lemma {:induction false} CacheIsLatest(c: Cache, so: Option<Grant>, run: seq<Call>)
    requires c == if so.Some? then Filled(so.value) else EMPTY
    ensures var g := Latest(c, so, run); AfterAll(c, run) == if g.Some? then Filled(g.value) else EMPTY
    decreases |run|
  {
    if run != [] {
      var next := if run[0].Invalidate? then None
                  else if !Usable(c, run[0].now) && run[0].grant.Some? then run[0].grant else so;
      CacheIsLatest(After(c, run[0]), next, run[1..]);
    }
  }

  lemma {:induction false} GrantTimes(c: Cache, clock: Time, so: Option<Grant>, run: seq<Call>)
    requires Possible(c, clock, run) && (so.Some? ==> so.value.issued <= so.value.received)
    ensures Latest(c, so, run).Some? ==> Latest(c, so, run).value.issued <= Latest(c, so, run).value.received
    decreases |run|
  {
    if run != [] {
      var next := if run[0].Invalidate? then None
                  else if !Usable(c, run[0].now) && run[0].grant.Some? then run[0].grant else so;
      GrantTimes(After(c, run[0]), EndOf(c, run[0]), next, run[1..]);
    }
  }

  /** After any run from an empty cache, a token served without a fetch is the latest one fetched
      since the last Invalidate, and if its answer took L to arrive, the server itself still
      honours it for more than 60 s - L. */
  lemma ServedTokenIsLiveAndLatest(clock: Time, run: seq<Call>, now: Time)
    requires Possible(EMPTY, clock, run) && Usable(AfterAll(EMPTY, run), now)
    ensures Latest(EMPTY, None, run).Some?
    ensures var g := Latest(EMPTY, None, run).value;
            && AfterAll(EMPTY, run).token == g.token && g.issued <= g.received
            && (g.issued + g.expiresIn) - now > 60_000_000_000 - (g.received - g.issued)
  {
    CacheIsLatest(EMPTY, None, run);
    GrantTimes(EMPTY, clock, None, run);
  }

  /** A fetched, non-empty token suppresses every further fetch until a minute before its client-side
      expiry: whatever run of Gets starts before then leaves the cache alone. */
  lemma {:induction false} FetchSuppressesFetches(g: Grant, run: seq<Call>)
    requires g.token != ""
    requires forall i :: 0 <= i < |run| ==> run[i].Get? && run[i].now < g.received + g.expiresIn - 60_000_000_000
    ensures AfterAll(Filled(g), run) == Filled(g)
    ensures forall i :: 0 <= i < |run| ==> Usable(AfterAll(Filled(g), run[..i]), run[i].now)
    decreases |run|
  {
    if run != [] {
      FetchSuppressesFetches(g, run[1..]);
      assert run[..0] == [];
      forall i | 0 < i < |run| ensures Usable(AfterAll(Filled(g), run[..i]), run[i].now) {
        assert run[..i][1..] == run[1..][..i - 1];
        assert run[1..][i - 1] == run[i];
      }
    }
  }
}
