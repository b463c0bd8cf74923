/** The signing-key cache of the Cloudflare Access verifier under interleaved calls
  * (apps/fgos-gateway/src/cf_access.rs). A `kid` is that of section 4.1.4 of RFC 7515. */
module JwksCache {
  import opened Wrappers

  type Kid = string
  type Key = string
  type CallId = nat

  /** Instants and durations are in nanoseconds. */
  type Instant = nat

  const TTL: nat := 3600 * 1_000_000_000

  datatype Error = Fetch | UnknownKid

  /** A published key; `key` is `None` when its components make no key. */
  datatype Jwk = Jwk(kid: Kid, key: Option<Key>)

  // ---------- the keys of an answer ----------

  predicate Gives(jwks: seq<Jwk>, k: nat, kid: Kid) { k < |jwks| && jwks[k].kid == kid && jwks[k].key.Some? }

  /** The keys of an answer: the last usable one of each kid. */
  function KeysOf(jwks: seq<Jwk>): map<Kid, Key> {
    if jwks == [] then map[]
    else
      var last := jwks[|jwks| - 1];
      var rest := KeysOf(jwks[..|jwks| - 1]);
      if last.key.Some? then rest[last.kid := last.key.value] else rest
  }

  lemma {:induction false} KeysAreLast(jwks: seq<Jwk>, kid: Kid)
    ensures kid in KeysOf(jwks) <==> exists k: nat :: Gives(jwks, k, kid)
    ensures kid in KeysOf(jwks) ==> exists k: nat ::
              && Gives(jwks, k, kid) && jwks[k].key == Some(KeysOf(jwks)[kid])
              && forall j: nat {:trigger Gives(jwks, j, kid)} :: j > k ==> !Gives(jwks, j, kid)
  {
    if jwks != [] {
      var n := |jwks| - 1;
      var rest := jwks[..n];
      KeysAreLast(rest, kid);
      assert forall k: nat :: k < n ==> (Gives(jwks, k, kid) <==> Gives(rest, k, kid));
      assert Gives(jwks, n, kid) <==> jwks[n].kid == kid && jwks[n].key.Some?;
      if kid in KeysOf(jwks) && !Gives(jwks, n, kid) {
        var k: nat :| Gives(rest, k, kid) && rest[k].key == Some(KeysOf(rest)[kid])
                      && forall j: nat {:trigger Gives(rest, j, kid)} :: j > k ==> !Gives(rest, j, kid);
        assert Gives(jwks, k, kid);
      }
    }
  }

  // ---------- the cache and its two critical sections ----------

  datatype Cache = Cache(keys: map<Kid, Key>, fetchedAt: Option<Instant>)

  const EMPTY := Cache(map[], None)

  predicate Fresh(c: Cache, now: Instant) {
    c.fetchedAt.Some? && (now < c.fetchedAt.value || now - c.fetchedAt.value < TTL)
  }

  function Lookup(keys: map<Kid, Key>, kid: Kid): Result<Key, Error> {
    if kid in keys then Ok(keys[kid]) else Err(UnknownKid)
  }

  /** What a call that looks for `kid` is told from an answer: its last usable key of that kid, or that it has none. */
  ghost predicate Answers(jwks: seq<Jwk>, kid: Kid, r: Result<Key, Error>) {
    match r
    case Ok(key) => exists k: nat :: LastOf(jwks, k, kid) && jwks[k].key == Some(key)
    case Err(error) => error == UnknownKid && forall k: nat :: !Gives(jwks, k, kid)
  }

  ghost predicate LastOf(jwks: seq<Jwk>, k: nat, kid: Kid) {
    Gives(jwks, k, kid) && forall j: nat {:trigger Gives(jwks, j, kid)} :: j > k ==> !Gives(jwks, j, kid)
  }

  lemma LookupAnswers(jwks: seq<Jwk>, kid: Kid, r: Result<Key, Error>)
    ensures Lookup(KeysOf(jwks), kid) == r <==> Answers(jwks, kid, r)
  {
    KeysAreLast(jwks, kid);
    forall j: nat, k: nat | LastOf(jwks, j, kid) && LastOf(jwks, k, kid) ensures j == k {
      assert !(j < k) && !(k < j);
    }
    if kid in KeysOf(jwks) {
      var k: nat :| LastOf(jwks, k, kid) && jwks[k].key == Some(KeysOf(jwks)[kid]);
    }
  }

  // ---------- interleaved calls ----------

  /** A call checks the cache; if it must fetch, it comes back later with the answer (`None`: the fetch failed). */
  datatype Event =
    | Begin(call: CallId, kid: Kid, now: Instant)
    | Finish(call: CallId, answer: Option<seq<Jwk>>, now: Instant)

  datatype State = State(cache: Cache, fetching: map<CallId, Kid>)

  const START := State(EMPTY, map[])

  predicate Enabled(s: State, e: Event) {
    match e
    case Begin(call, _, _) => call !in s.fetching
    case Finish(call, _, _) => call in s.fetching
  }

  function Step(s: State, e: Event): State
    requires Enabled(s, e)
  {
    match e
    case Begin(call, kid, now) => if Fresh(s.cache, now) then s else s.(fetching := s.fetching[call := kid])
    case Finish(call, answer, now) =>
      var waiting := s.fetching - {call};
      if answer.None? then State(s.cache, waiting) else State(Cache(KeysOf(answer.value), Some(now)), waiting)
  }

  /** What a call is told at an event, if it ends there. */
  function Told(s: State, e: Event): Option<Result<Key, Error>>
    requires Enabled(s, e)
  {
    match e
    case Begin(_, kid, now) => if Fresh(s.cache, now) then Some(Lookup(s.cache.keys, kid)) else None
    case Finish(call, answer, _) =>
      Some(if answer.None? then Err(Fetch) else Lookup(KeysOf(answer.value), s.fetching[call]))
  }

  /** The shared verifier. The cache is locked in two short sections, at the begin of a call and, after
    * the fetch, at its end; `fetching` records who is in between. */
  class Verifier {
    var keys: map<Kid, Key>
    var fetchedAt: Option<Instant>
    ghost var fetching: map<CallId, Kid>

    ghost function Contents(): State
      reads this
    {
      State(Cache(keys, fetchedAt), fetching)
    }

    constructor ()
      ensures Contents() == START
    {
      keys, fetchedAt, fetching := map[], None, map[];
    }

    /** The first section: an answer from a fresh cache, or nothing when the keys must be fetched. */
    method Check(ghost call: CallId, kid: Kid, now: Instant) returns (r: Option<Result<Key, Error>>)
      requires Enabled(Contents(), Begin(call, kid, now))
      modifies this`fetching
      ensures Contents() == Step(old(Contents()), Begin(call, kid, now))
      ensures r == Told(old(Contents()), Begin(call, kid, now))
    {
      if fetchedAt.Some? {
        var elapsed := if now < fetchedAt.value then 0 else now - fetchedAt.value;
        if elapsed < TTL {
          return Some(if kid in keys then Ok(keys[kid]) else Err(UnknownKid));
        }
      }
      fetching := fetching[call := kid];
      r := None;
    }

    /** The second section: the fetched keys replace the cache, and the call is answered from them. */
    method Install(ghost call: CallId, answer: Option<seq<Jwk>>, kid: Kid, now: Instant) returns (r: Result<Key, Error>)
      requires Enabled(Contents(), Finish(call, answer, now)) && fetching[call] == kid
      modifies this
      ensures Contents() == Step(old(Contents()), Finish(call, answer, now))
      ensures Some(r) == Told(old(Contents()), Finish(call, answer, now))
    {
      fetching := fetching - {call};
      if answer.None? { return Err(Fetch); }
      var parsed := Parse(answer.value);
      keys, fetchedAt := parsed, Some(now);
      r := if kid in keys then Ok(keys[kid]) else Err(UnknownKid);
    }
  }

  method Parse(jwks: seq<Jwk>) returns (parsed: map<Kid, Key>)
    ensures parsed == KeysOf(jwks)
  {
    parsed := map[];
    var i := 0;
    while i < |jwks|
      invariant 0 <= i <= |jwks| && parsed == KeysOf(jwks[..i])
    {
      assert jwks[..i + 1][..i] == jwks[..i];
      if jwks[i].key.Some? { parsed := parsed[jwks[i].kid := jwks[i].key.value]; }
      i := i + 1;
    }
    assert jwks[..i] == jwks;
  }

  /** The state after `k` events; the run stops at an event that is not enabled. */
  function After(events: seq<Event>, k: nat): State
    requires k <= |events|
  {
    if k == 0 then START
    else
      var before := After(events, k - 1);
      if Enabled(before, events[k - 1]) then Step(before, events[k - 1]) else before
  }

  predicate EnabledAt(events: seq<Event>, k: nat) { k < |events| && Enabled(After(events, k), events[k]) }

  /** Every event is enabled and the clock does not run backwards. */
  ghost predicate IsRun(events: seq<Event>) {
    && (forall k: nat {:trigger EnabledAt(events, k)} :: k < |events| ==> EnabledAt(events, k))
    && (forall j: nat, k: nat {:trigger events[j], events[k]} :: j <= k < |events| ==> events[j].now <= events[k].now)
  }

  predicate Installs(events: seq<Event>, k: nat) { k < |events| && events[k].Finish? && events[k].answer.Some? }

  /** Event `i` installed what the cache holds after `k` events. */
  ghost predicate Last(events: seq<Event>, i: nat, k: nat) {
    && i < k <= |events| && Installs(events, i)
    && After(events, k).cache == Cache(KeysOf(events[i].answer.value), Some(events[i].now))
    && forall j: nat {:trigger Installs(events, j)} :: i < j < k ==> !Installs(events, j)
  }

  lemma CacheStep(events: seq<Event>, k: nat)
    requires IsRun(events) && k < |events|
    ensures EnabledAt(events, k) && After(events, k + 1) == Step(After(events, k), events[k])
    ensures !Installs(events, k) ==> After(events, k + 1).cache == After(events, k).cache
  {
  }

  /** The cache is empty, or it holds what the latest install put there. */
  lemma {:induction false} CacheIsLastInstall(events: seq<Event>, k: nat) returns (i: nat)
    requires IsRun(events) && k <= |events|
    ensures if After(events, k).cache.fetchedAt.Some? then Last(events, i, k)
            else forall j: nat {:trigger Installs(events, j)} :: j < k ==> !Installs(events, j)
  {
    i := 0;
    if k > 0 {
      i := CacheIsLastInstall(events, k - 1);
      CacheStep(events, k - 1);
      if Installs(events, k - 1) { i := k - 1; }
    }
  }

  /** A returned key was fetched by the call itself, or comes from the latest install, which is
    * less than the TTL old at the call's check: stale keys are never served. */
  lemma KeysAreFreshOrOwn(events: seq<Event>, k: nat, key: Key) returns (i: nat)
    requires IsRun(events) && EnabledAt(events, k) && Told(After(events, k), events[k]) == Some(Ok(key))
    ensures match events[k]
      case Finish(call, answer, _) =>
        var kid := After(events, k).fetching[call];
        answer.Some? && kid in KeysOf(answer.value) && KeysOf(answer.value)[kid] == key
      case Begin(_, kid, now) =>
        && Last(events, i, k) && events[i].now <= now < events[i].now + TTL
        && kid in KeysOf(events[i].answer.value) && KeysOf(events[i].answer.value)[kid] == key
  {
    i := CacheIsLastInstall(events, k);
  }

  /** After an install the cache stays fresh until the TTL passes. */
  lemma {:induction false} FreshAfterInstall(events: seq<Event>, i: nat, k: nat)
    requires IsRun(events) && Installs(events, i) && i < k <= |events|
    ensures After(events, k).cache.fetchedAt.Some? && After(events, k).cache.fetchedAt.value >= events[i].now
  {
    CacheStep(events, k - 1);
    if k - 1 > i {
      FreshAfterInstall(events, i, k - 1);
      assert events[i].now <= events[k - 1].now;
    }
  }

  /** Event `b` began a call that was told nothing, and the call did not finish before event `k`. */
  ghost predicate FetchesSince(events: seq<Event>, b: nat, k: nat, call: CallId) {
    && b < k <= |events| && events[b].Begin? && events[b].call == call
    && EnabledAt(events, b) && Told(After(events, b), events[b]).None?
    && forall j: nat {:trigger FinishedAt(events, j, call)} :: b < j < k ==> !FinishedAt(events, j, call)
  }

  predicate FinishedAt(events: seq<Event>, k: nat, call: CallId) {
    k < |events| && events[k].Finish? && events[k].call == call
  }

  /** A call that waits for keys began at some event before, with a stale cache. */
  lemma {:induction false} WaitingBegan(events: seq<Event>, call: CallId, k: nat) returns (b: nat)
    requires IsRun(events) && k <= |events| && call in After(events, k).fetching
    ensures FetchesSince(events, b, k, call) && !Fresh(After(events, b).cache, events[b].now)
    ensures After(events, k).fetching[call] == events[b].kid
    ensures forall j: nat :: b < j <= k ==> call in After(events, j).fetching
  {
    CacheStep(events, k - 1);
    if call in After(events, k - 1).fetching {
      b := WaitingBegan(events, call, k - 1);
    } else {
      b := k - 1;
    }
  }

  lemma {:induction false} FetchesUntilFinished(events: seq<Event>, b: nat, k: nat, call: CallId)
    requires IsRun(events) && FetchesSince(events, b, k, call)
    ensures call in After(events, k).fetching && After(events, k).fetching[call] == events[b].kid
  {
    CacheStep(events, k - 1);
    if b < k - 1 {
      FetchesUntilFinished(events, b, k - 1, call);
      assert !FinishedAt(events, k - 1, call);
    }
  }

  /** A call that finds the cache empty or stale fetches from then on, until it finishes. */
  lemma FetchingIff(events: seq<Event>, k: nat, call: CallId)
    requires IsRun(events) && k <= |events|
    ensures call in After(events, k).fetching <==> exists b: nat :: FetchesSince(events, b, k, call)
  {
    if call in After(events, k).fetching {
      var b := WaitingBegan(events, call, k);
    }
    if b: nat :| FetchesSince(events, b, k, call) {
      FetchesUntilFinished(events, b, k, call);
    }
  }

  /** Event `i` is the latest install before event `k`. */
  ghost predicate Latest(events: seq<Event>, i: nat, k: nat) {
    i < k && Installs(events, i) && forall j: nat {:trigger Installs(events, j)} :: i < j < k ==> !Installs(events, j)
  }

  /** A beginning call is answered at once exactly when the latest install is less than 3600 seconds old, and then
    * from the keys of that install. */
  lemma BeginToldIff(events: seq<Event>, k: nat, r: Result<Key, Error>)
    requires IsRun(events) && k < |events| && events[k].Begin?
    ensures EnabledAt(events, k)
    ensures Told(After(events, k), events[k]) == Some(r) <==>
      exists i: nat :: Latest(events, i, k) && events[k].now < events[i].now + 3_600_000_000_000
                       && Answers(events[i].answer.value, events[k].kid, r)
  {
    CacheStep(events, k);
    var i := CacheIsLastInstall(events, k);
    if After(events, k).cache.fetchedAt.Some? {
      LookupAnswers(events[i].answer.value, events[k].kid, r);
      assert forall j: nat :: Latest(events, j, k) ==> !(i < j) && !(j < i);
      assert events[i].now <= events[k].now;
    }
  }

  /** A call that comes back is told that the fetch failed, or is answered from the keys it fetched. */
  lemma FinishToldIff(events: seq<Event>, k: nat, b: nat, r: Result<Key, Error>)
    requires IsRun(events) && k < |events| && events[k].Finish? && FetchesSince(events, b, k, events[k].call)
    ensures EnabledAt(events, k)
    ensures Told(After(events, k), events[k]) == Some(r) <==>
            if events[k].answer.None? then r == Err(Fetch)
            else Answers(events[k].answer.value, events[b].kid, r)
  {
    CacheStep(events, k);
    FetchesUntilFinished(events, b, k, events[k].call);
    if events[k].answer.Some? { LookupAnswers(events[k].answer.value, events[b].kid, r); }
  }

  /** After an install, until the TTL passes, every call that is fetching began before that install. */
  lemma OnlyEarlierCallsAreFetching(events: seq<Event>, i: nat, k: nat, call: CallId) returns (b: nat)
    requires IsRun(events) && Installs(events, i) && i < k < |events| && events[k].now < events[i].now + TTL
    requires call in After(events, k).fetching
    ensures b < i && events[b].Begin? && events[b].call == call
    ensures forall j: nat :: b < j <= k ==> call in After(events, j).fetching
  {
    b := WaitingBegan(events, call, k);
    assert events[b].now <= events[k].now;
    if i < b { FreshAfterInstall(events, i, b); }
  }

  /** And no call begins to fetch in that time. */
  lemma NoFetchBegins(events: seq<Event>, i: nat, k: nat)
    requires IsRun(events) && Installs(events, i) && i < k < |events| && events[k].now < events[i].now + TTL
    requires events[k].Begin?
    ensures After(events, k + 1) == After(events, k) && EnabledAt(events, k) && Told(After(events, k), events[k]).Some?
  {
    CacheStep(events, k);
    FreshAfterInstall(events, i, k);
  }

  /** After an install, until the TTL passes, every fetch that comes back belongs to a call that had
    * already checked before that install. */
  lemma OnlyEarlierCallsFetch(events: seq<Event>, i: nat, k: nat) returns (b: nat)
    requires IsRun(events) && Installs(events, i) && i < k < |events|
    requires events[k].Finish? && events[k].now < events[i].now + TTL
    ensures b < i && events[b].Begin? && events[b].call == events[k].call
    ensures forall j: nat :: b < j <= k ==> events[k].call in After(events, j).fetching
  {
    CacheStep(events, k);
    b := OnlyEarlierCallsAreFetching(events, i, k, events[k].call);
  }

  // ---------- one call at a time ----------

  /** A call begins only when no other is waiting. */
  ghost predicate Sequential(events: seq<Event>) {
    forall k: nat {:trigger After(events, k)} :: k < |events| && events[k].Begin? ==> After(events, k).fetching == map[]
  }

  lemma {:induction false} OneWaits(events: seq<Event>, k: nat, a: CallId, b: CallId)
    requires IsRun(events) && Sequential(events) && k <= |events|
    requires a in After(events, k).fetching && b in After(events, k).fetching
    ensures a == b
  {
    CacheStep(events, k - 1);
    if events[k - 1].Finish? { OneWaits(events, k - 1, a, b); }
  }

  /** Two installs of sequential calls are at least the TTL apart. */
  lemma InstallsAreApart(events: seq<Event>, i: nat, j: nat)
    requires IsRun(events) && Sequential(events) && i < j && Installs(events, i) && Installs(events, j)
    ensures events[i].now + TTL <= events[j].now
  {
    CacheStep(events, i);
    CacheStep(events, j);
    FinishedWaitsNoMore(events, i);
    if events[j].now < events[i].now + TTL {
      var b := OnlyEarlierCallsFetch(events, i, j);
      OneWaits(events, i, events[i].call, events[j].call);
    }
  }

  lemma FinishedWaitsNoMore(events: seq<Event>, i: nat)
    requires IsRun(events) && i < |events| && events[i].Finish?
    ensures events[i].call !in After(events, i + 1).fetching
  {
  }

  function InstallCount(events: seq<Event>, i: nat, j: nat): nat
    requires i <= j <= |events|
    decreases j - i
  {
    if i == j then 0 else InstallCount(events, i, j - 1) + (if Installs(events, j - 1) then 1 else 0)
  }

  /** From one install to another of sequential calls, every further install takes at least the TTL:
    * `n` installs span at least `n - 1` TTLs. */
  lemma {:induction false} InstallsSpan(events: seq<Event>, i: nat, j: nat)
    requires IsRun(events) && Sequential(events) && i <= j && Installs(events, i) && Installs(events, j)
    ensures events[j].now >= events[i].now + InstallCount(events, i + 1, j + 1) * TTL
    decreases j
  {
    if i < j {
      var m := PreviousInstall(events, i, j);
      InstallsSpan(events, i, m);
      InstallsAreApart(events, m, j);
    }
  }

  lemma PreviousInstall(events: seq<Event>, i: nat, j: nat) returns (m: nat)
    requires i < j && Installs(events, i) && Installs(events, j)
    ensures i <= m < j && Installs(events, m)
    ensures InstallCount(events, i + 1, j + 1) == InstallCount(events, i + 1, m + 1) + 1
  {
    m := j - 1;
    while !Installs(events, m)
      invariant i <= m < j
      invariant InstallCount(events, i + 1, j) == InstallCount(events, i + 1, m + 1)
      decreases m
    {
      m := m - 1;
    }
  }
}
