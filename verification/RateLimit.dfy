/**
 The API's token bucket: one bucket per client, refilled continuously up to the burst, and dropped
 by the cleanup loop when its client has been silent for more than ten minutes.

 Tokens and times are reals (seconds on one monotone clock); rate and burst are the configured
 integers.
 */
module RateLimit {
  import opened Common

  const IDLE_SECONDS := 600.0

  datatype Bucket = Bucket(tokens: real, last: real)

  type Clients = map<string, Bucket>

  /** A bucket's tokens at time `now`, before the request takes one. */
  function Refilled(rate: int, burst: int, b: Bucket, now: real): real {
    var tokens := b.tokens + (now - b.last) * rate as real;
    if tokens > burst as real then burst as real else tokens
  }

  datatype Answer = Answer(allowed: bool, bucket: Bucket)

  /** The answer to a request of a client whose bucket is `b`, or who has none. */
  function Ask(rate: int, burst: int, known: bool, b: Bucket, now: real): Answer {
    if !known then Answer(true, Bucket(burst as real - 1.0, now))
    else
      var tokens := Refilled(rate, burst, b, now);
      if tokens < 1.0 then Answer(false, Bucket(tokens, now)) else Answer(true, Bucket(tokens - 1.0, now))
  }

  const NO_BUCKET := Bucket(0.0, 0.0)

  function BucketOf(clients: Clients, ip: string): Bucket {
    if ip in clients then clients[ip] else NO_BUCKET
  }

  function AskClient(rate: int, burst: int, clients: Clients, ip: string, now: real): Answer {
    Ask(rate, burst, ip in clients, BucketOf(clients, ip), now)
  }

  function Swept(clients: Clients, now: real): Clients {
    map ip | ip in clients && !(clients[ip].last < now - IDLE_SECONDS) :: clients[ip]
  }

  class RateLimiter {
    const rate: int
    const burst: int
    var clients: Clients

    constructor (rps: int, burst: int)
      ensures clients == map[] && rate == rps && this.burst == burst
    {
      clients := map[];
      rate := rps;
      this.burst := burst;
    }

    method Allow(ip: string, now: real) returns (allowed: bool)
      modifies this
      ensures allowed == AskClient(rate, burst, old(clients), ip, now).allowed
      ensures clients == old(clients)[ip := AskClient(rate, burst, old(clients), ip, now).bucket]
    {
      if ip !in clients {
        clients := clients[ip := Bucket(burst as real - 1.0, now)];
        return true;
      }
      var c := clients[ip];
      var elapsed := now - c.last;
      var tokens := c.tokens + elapsed * rate as real;
      if tokens > burst as real {
        tokens := burst as real;
      }
      assert tokens == Refilled(rate, burst, c, now);
      if tokens < 1.0 {
        clients := clients[ip := Bucket(tokens, now)];
        return false;
      }
      clients := clients[ip := Bucket(tokens - 1.0, now)];
      return true;
    }

    /** One round of the cleanup loop. */
    method Cleanup(now: real)
      modifies this
      ensures clients == Swept(old(clients), now)
      ensures forall ip :: ip in clients <==> ip in old(clients) && now - old(clients)[ip].last <= 600.0
      ensures forall ip :: ip in clients ==> clients[ip] == old(clients)[ip]
    {
      var cutoff := now - IDLE_SECONDS;
      var todo := clients.Keys;
      while todo != {}
        invariant todo <= old(clients).Keys
        invariant forall ip :: ip in clients <==>
          ip in old(clients) && (ip in todo || !(old(clients)[ip].last < cutoff))
        invariant forall ip :: ip in clients ==> clients[ip] == old(clients)[ip]
        decreases todo
      {
        var ip :| ip in todo;
        if clients[ip].last < cutoff {
          clients := clients - {ip};
        }
        todo := todo - {ip};
      }
    }
  }

  // ---------------------------------------------------------------------------
  // Runs
  // ---------------------------------------------------------------------------

  datatype Event =
    | Request(ip: string, at: real)
    | Sweep(at: real)

  /** Event times do not decrease. */
  ghost predicate Ordered(events: seq<Event>) {
    forall i, j :: 0 <= i <= j < |events| ==> events[i].at <= events[j].at
  }

  function Step(rate: int, burst: int, clients: Clients, e: Event): Clients {
    match e
    case Request(ip, at) => clients[ip := AskClient(rate, burst, clients, ip, at).bucket]
    case Sweep(at) => Swept(clients, at)
  }

  function Run(rate: int, burst: int, events: seq<Event>): Clients {
    if events == [] then map[]
    else Step(rate, burst, Run(rate, burst, events[..|events| - 1]), events[|events| - 1])
  }

  /** Whether the request at position `k` is allowed. */
  predicate Allowed(rate: int, burst: int, events: seq<Event>, k: nat)
    requires k < |events| && events[k].Request?
  {
    AskClient(rate, burst, Run(rate, burst, events[..k]), events[k].ip, events[k].at).allowed
  }

  /** A limiter that never evicts: the same events without their sweeps. */
  function Kept(rate: int, burst: int, events: seq<Event>): Clients {
    if events == [] then map[]
    else
      var clients := Kept(rate, burst, events[..|events| - 1]);
      var e := events[|events| - 1];
      if e.Sweep? then clients else Step(rate, burst, clients, e)
  }

  predicate AllowedKept(rate: int, burst: int, events: seq<Event>, k: nat)
    requires k < |events| && events[k].Request?
  {
    AskClient(rate, burst, Kept(rate, burst, events[..k]), events[k].ip, events[k].at).allowed
  }

  // ---------------------------------------------------------------------------
  // Eviction
  // ---------------------------------------------------------------------------

  /** Every bucket was last used by `now`, and holds between 0 and `burst` tokens. */
  predicate Sound(burst: int, b: Bucket, now: real) {
    b.last <= now && 0.0 <= b.tokens <= burst as real
  }

  ghost predicate AllSound(burst: int, clients: Clients, now: real) {
    forall ip :: ip in clients ==> Sound(burst, clients[ip], now)
  }

  lemma SameProduct(x: real, y: real, r: real)
    requires x == y
    ensures x * r == y * r
  {
  }

  lemma AskIsSound(rate: int, burst: int, known: bool, b: Bucket, now: real)
    requires rate >= 0 && burst >= 1 && (known ==> Sound(burst, b, now))
    ensures Sound(burst, Ask(rate, burst, known, b, now).bucket, now)
  {
    if known {
      Product(now - b.last, rate as real);
    }
  }

  /** After ten idle minutes a bucket is full, as a fresh client's is. */
  lemma IdleIsFresh(rate: int, burst: int, b: Bucket, now: real)
    requires rate * 600 >= burst >= 1 && Sound(burst, b, now) && b.last < now - IDLE_SECONDS
    ensures Ask(rate, burst, true, b, now) == Ask(rate, burst, false, b, now)
  {
    assert rate >= 1;
    Product(now - b.last - 600.0, rate as real);
    assert (now - b.last) * rate as real == (now - b.last - 600.0) * rate as real + 600.0 * rate as real;
    assert 600.0 * rate as real == (rate * 600) as real;
  }

  /** What the sweeping limiter still knows of a client is what the other knows, or is full anyway. */
  predicate SameClient(swept: Clients, kept: Clients, now: real, ip: string) {
    if ip in swept then ip in kept && swept[ip] == kept[ip]
    else ip in kept ==> kept[ip].last < now - IDLE_SECONDS
  }

  lemma {:induction false} SweepingLosesNothing(rate: int, burst: int, events: seq<Event>, now: real)
    requires rate * 600 >= burst >= 1 && Ordered(events) && (events != [] ==> events[|events| - 1].at <= now)
    ensures AllSound(burst, Kept(rate, burst, events), now)
    ensures forall ip :: SameClient(Run(rate, burst, events), Kept(rate, burst, events), now, ip)
  {
    if events != [] {
      var n := |events| - 1;
      var e := events[n];
      var before := events[..n];
      assert before != [] ==> before[n - 1].at <= e.at;
      SweepingLosesNothing(rate, burst, before, e.at);
      var swept, kept := Run(rate, burst, before), Kept(rate, burst, before);
      if e.Request? {
        assert SameClient(swept, kept, e.at, e.ip);
        assert e.ip in kept ==> Sound(burst, kept[e.ip], e.at);
        if e.ip in kept && e.ip !in swept {
          IdleIsFresh(rate, burst, kept[e.ip], e.at);
        }
        AskIsSound(rate, burst, e.ip in kept, BucketOf(kept, e.ip), e.at);
      }
      forall ip ensures SameClient(Run(rate, burst, events), Kept(rate, burst, events), now, ip) {
        assert SameClient(swept, kept, e.at, ip);
      }
    }
  }

  /** Eviction is unobservable when ten minutes refill a whole burst. */
  lemma EvictionIsUnobservable(rate: int, burst: int, events: seq<Event>, k: nat)
    requires rate * 600 >= burst >= 1 && Ordered(events) && k < |events| && events[k].Request?
    ensures Allowed(rate, burst, events, k) == AllowedKept(rate, burst, events, k)
  {
    var before := events[..k];
    var e := events[k];
    SweepingLosesNothing(rate, burst, before, e.at);
    var swept, kept := Run(rate, burst, before), Kept(rate, burst, before);
    assert SameClient(swept, kept, e.at, e.ip);
    if e.ip in kept && e.ip !in swept {
      assert Sound(burst, kept[e.ip], e.at);
      IdleIsFresh(rate, burst, kept[e.ip], e.at);
    }
  }

  // ---------------------------------------------------------------------------
  // The sliding window
  // ---------------------------------------------------------------------------

  predicate IsRequest(e: Event, ip: string) { e.Request? && e.ip == ip }

  /** Whether request `k` is allowed, by the limiter with or without the cleanup loop. */
  predicate Answered(sweeping: bool, rate: int, burst: int, events: seq<Event>, k: nat)
    requires k < |events| && events[k].Request?
  {
    if sweeping then Allowed(rate, burst, events, k) else AllowedKept(rate, burst, events, k)
  }

  /** The number of allowed requests of `ip` among `events[i..j]`. */
  function CountAllowed(sweeping: bool, rate: int, burst: int, events: seq<Event>, ip: string, i: nat, j: nat): nat
    requires j <= |events|
  {
    if j <= i then 0
    else
      CountAllowed(sweeping, rate, burst, events, ip, i, j - 1)
      + if IsRequest(events[j - 1], ip) && Answered(sweeping, rate, burst, events, j - 1) then 1 else 0
  }

  /** What a client may be allowed between its requests at positions `i` and `j`. */
  ghost predicate InBound(sweeping: bool, rate: int, burst: int, events: seq<Event>, ip: string, i: nat, j: nat)
    requires i <= j < |events|
  {
    CountAllowed(sweeping, rate, burst, events, ip, i, j + 1) as real
    <= burst as real + (events[j].at - events[i].at) * rate as real
  }

  ghost predicate WindowBounded(sweeping: bool, rate: int, burst: int) {
    forall events, ip, i: nat, j: nat
      | i <= j < |events| && Ordered(events) && IsRequest(events[i], ip) && IsRequest(events[j], ip) ::
      InBound(sweeping, rate, burst, events, ip, i, j)
  }

  lemma {:induction false} KeptIsSound(rate: int, burst: int, events: seq<Event>, now: real)
    requires rate >= 0 && burst >= 1 && Ordered(events) && (events != [] ==> events[|events| - 1].at <= now)
    ensures AllSound(burst, Kept(rate, burst, events), now)
  {
    if events != [] {
      var n := |events| - 1;
      var e := events[n];
      assert events[..n] != [] ==> events[..n][n - 1].at <= e.at;
      KeptIsSound(rate, burst, events[..n], e.at);
      if e.Request? {
        var kept := Kept(rate, burst, events[..n]);
        AskIsSound(rate, burst, e.ip in kept, BucketOf(kept, e.ip), e.at);
      }
    }
  }

  /** A request spends a token if it is allowed, and gains at most the refill. */
  lemma AskConserves(rate: int, burst: int, b: Bucket, now: real)
    ensures
      var r := Ask(rate, burst, true, b, now);
      r.bucket.tokens + (if r.allowed then 1.0 else 0.0) <= b.tokens + (now - b.last) * rate as real
  {
  }

  /** Allowed requests plus remaining tokens are at most the burst plus the refill since `start`. */
  predicate Conserved(rate: int, burst: int, count: nat, b: Bucket, start: real) {
    count as real + b.tokens <= burst as real + (b.last - start) * rate as real
  }

  lemma FirstConserves(rate: int, burst: int, known: bool, b: Bucket, now: real)
    ensures
      var r := Ask(rate, burst, known, b, now);
      Conserved(rate, burst, if r.allowed then 1 else 0, r.bucket, now) && r.bucket.last == now
  {
    assert (now - now) * rate as real == 0.0;
  }

  lemma Distribute(x: real, y: real, z: real, r: real)
    ensures (y - x) * r + (z - y) * r == (z - x) * r
  {
  }

  lemma NextConserves(rate: int, burst: int, count: nat, b: Bucket, start: real, now: real)
    requires Conserved(rate, burst, count, b, start)
    ensures
      var r := Ask(rate, burst, true, b, now);
      Conserved(rate, burst, count + if r.allowed then 1 else 0, r.bucket, start) && r.bucket.last == now
  {
    AskConserves(rate, burst, b, now);
    Distribute(start, b.last, now, rate as real);
  }

  /** From the window's first request on, tokens are conserved up to the client's last request. */
  lemma {:induction false} TokensAreConserved(rate: int, burst: int, events: seq<Event>, ip: string, i: nat, j: nat)
    requires i < j <= |events| && IsRequest(events[i], ip)
    ensures
      var kept := Kept(rate, burst, events[..j]);
      && ip in kept
      && Conserved(rate, burst, CountAllowed(false, rate, burst, events, ip, i, j), kept[ip], events[i].at)
      && (IsRequest(events[j - 1], ip) ==> kept[ip].last == events[j - 1].at)
  {
    var e := events[j - 1];
    var before := Kept(rate, burst, events[..j - 1]);
    assert events[..j][..j - 1] == events[..j - 1];
    if j - 1 == i {
      FirstConserves(rate, burst, ip in before, BucketOf(before, ip), e.at);
      assert CountAllowed(false, rate, burst, events, ip, i, i) == 0;
    } else {
      TokensAreConserved(rate, burst, events, ip, i, j - 1);
      if IsRequest(e, ip) {
        NextConserves(rate, burst, CountAllowed(false, rate, burst, events, ip, i, j - 1), before[ip], events[i].at, e.at);
      }
    }
  }

  /** Without the cleanup loop the bound holds for every ordered sequence of requests. */
  lemma KeptInBound(rate: int, burst: int, events: seq<Event>, ip: string, i: nat, j: nat)
    requires rate >= 0 && burst >= 1
    requires i <= j < |events| && Ordered(events) && IsRequest(events[i], ip) && IsRequest(events[j], ip)
    ensures InBound(false, rate, burst, events, ip, i, j)
  {
    hide Refilled, Conserved;
    TokensAreConserved(rate, burst, events, ip, i, j + 1);
    var before := events[..j + 1];
    assert before[|before| - 1] == events[j];
    KeptIsSound(rate, burst, before, events[j].at);
    var count := CountAllowed(false, rate, burst, events, ip, i, j + 1);
    ConservedIsBounded(rate, burst, count, Kept(rate, burst, before)[ip], events[i].at, events[j].at);
  }

  lemma ConservedIsBounded(rate: int, burst: int, count: nat, b: Bucket, start: real, end: real)
    requires Conserved(rate, burst, count, b, start) && Sound(burst, b, end) && b.last == end
    ensures count as real <= burst as real + (end - start) * rate as real
  {
  }

  lemma {:induction false} SameCount(rate: int, burst: int, events: seq<Event>, ip: string, i: nat, j: nat)
    requires rate * 600 >= burst >= 1 && Ordered(events) && j <= |events|
    ensures CountAllowed(true, rate, burst, events, ip, i, j) == CountAllowed(false, rate, burst, events, ip, i, j)
  {
    if i < j {
      SameCount(rate, burst, events, ip, i, j - 1);
      if IsRequest(events[j - 1], ip) {
        EvictionIsUnobservable(rate, burst, events, j - 1);
      }
    }
  }

  // ---------------------------------------------------------------------------
  // When a request is allowed
  // ---------------------------------------------------------------------------

  /** With one request more, the window from request `i` to request `k` is within the bound. */
  ghost predicate RoomSince(sweeping: bool, rate: int, burst: int, events: seq<Event>, ip: string, i: nat, k: nat)
    requires i <= k < |events|
  {
    CountAllowed(sweeping, rate, burst, events, ip, i, k) as real + 1.0
    <= burst as real + (events[k].at - events[i].at) * rate as real
  }

  /** No window of the client's requests that ends with this one would be exceeded. */
  ghost predicate Room(sweeping: bool, rate: int, burst: int, events: seq<Event>, ip: string, k: nat)
    requires k < |events|
  {
    forall i: nat :: i <= k && IsRequest(events[i], ip) ==> RoomSince(sweeping, rate, burst, events, ip, i, k)
  }

  ghost predicate FirstRequest(events: seq<Event>, ip: string, k: nat)
    requires k < |events|
  {
    forall i: nat :: i < k ==> !IsRequest(events[i], ip)
  }

  /** Allowed requests plus remaining tokens come to the burst plus the refill since `start`. */
  predicate Attained(rate: int, burst: int, count: nat, b: Bucket, start: real) {
    count as real + b.tokens == burst as real + (b.last - start) * rate as real
  }

  lemma FirstAttains(rate: int, burst: int, now: real)
    ensures Attained(rate, burst, 1, Ask(rate, burst, false, NO_BUCKET, now).bucket, now)
  {
    assert (now - now) * rate as real == 0.0;
  }

  /** A refill that is not cut off at the burst keeps the balance; one that is starts a new one. */
  lemma NextAttains(rate: int, burst: int, count: nat, b: Bucket, start: real, now: real)
    requires Attained(rate, burst, count, b, start)
    ensures
      var r := Ask(rate, burst, true, b, now);
      var spent := if r.allowed then 1 else 0;
      Attained(rate, burst, count + spent, r.bucket, start) || Attained(rate, burst, spent, r.bucket, now)
  {
    Distribute(start, b.last, now, rate as real);
    assert (now - now) * rate as real == 0.0;
  }

  /** Some window up to a client's last request has used up everything but the tokens that are left. */
  lemma {:induction false} TokensAreAttained(rate: int, burst: int, events: seq<Event>, ip: string, j: nat) returns (i: nat)
    requires j <= |events| && ip in Kept(rate, burst, events[..j])
    ensures i < j && IsRequest(events[i], ip)
    ensures
      var count := CountAllowed(false, rate, burst, events, ip, i, j);
      Attained(rate, burst, count, Kept(rate, burst, events[..j])[ip], events[i].at)
    decreases j
  {
    hide Attained, Ask;
    assert j > 0 by { NobodyYet(rate, burst, events[..j]); }
    var e := events[j - 1];
    var before := Kept(rate, burst, events[..j - 1]);
    assert events[..j][..j - 1] == events[..j - 1];
    if !IsRequest(e, ip) {
      i := TokensAreAttained(rate, burst, events, ip, j - 1);
    } else if ip !in before {
      i := j - 1;
      FirstAttains(rate, burst, e.at);
      UnknownIsAllowed(rate, burst, BucketOf(before, ip), e.at);
      assert CountAllowed(false, rate, burst, events, ip, i, i) == 0;
    } else {
      i := TokensAreAttained(rate, burst, events, ip, j - 1);
      NextAttains(rate, burst, CountAllowed(false, rate, burst, events, ip, i, j - 1), before[ip], events[i].at, e.at);
      assert CountAllowed(false, rate, burst, events, ip, j - 1, j - 1) == 0;
      var r := Ask(rate, burst, true, before[ip], e.at);
      if Attained(rate, burst, if r.allowed then 1 else 0, r.bucket, e.at) {
        i := j - 1;
      }
    }
  }

  lemma NobodyYet(rate: int, burst: int, events: seq<Event>)
    ensures events == [] ==> Kept(rate, burst, events) == map[]
  {
  }

  lemma UnknownIsAllowed(rate: int, burst: int, b: Bucket, now: real)
    ensures Ask(rate, burst, false, b, now) == Ask(rate, burst, false, NO_BUCKET, now)
    ensures Ask(rate, burst, false, b, now).allowed
  {
  }

  /** A known client is allowed one more exactly when its tokens and the refill since come to at least 1, within the burst. */
  lemma KnownIsAllowed(rate: int, burst: int, b: Bucket, now: real)
    ensures Ask(rate, burst, true, b, now).allowed <==> burst >= 1 && b.tokens + (now - b.last) * rate as real >= 1.0
  {
  }

  lemma {:induction false} KnownByItsRequests(rate: int, burst: int, events: seq<Event>, ip: string, k: nat)
    requires k < |events|
    ensures ip in Kept(rate, burst, events[..k]) <==> !FirstRequest(events, ip, k)
    decreases k
  {
    hide AskClient, Ask;
    if k > 0 {
      assert events[..k][..k - 1] == events[..k - 1] && events[..k][k - 1] == events[k - 1];
      KnownByItsRequests(rate, burst, events, ip, k - 1);
    }
  }

  /** What is left since request `i` is room for one more exactly when tokens and refill are. */
  lemma RoomFromTokens(rate: int, burst: int, count: nat, b: Bucket, start: real, now: real)
    ensures Conserved(rate, burst, count, b, start) && b.tokens + (now - b.last) * rate as real >= 1.0 ==>
      count as real + 1.0 <= burst as real + (now - start) * rate as real
    ensures Attained(rate, burst, count, b, start) && count as real + 1.0 <= burst as real + (now - start) * rate as real ==>
      b.tokens + (now - b.last) * rate as real >= 1.0
  {
    Distribute(start, b.last, now, rate as real);
  }

  /**
   Without the cleanup loop, for every rate and burst and in every run: a request is allowed exactly
   when it is the client's first, or with it no window of the client's requests exceeds the bound.
   So the limiter refuses nothing that the bound permits.
   */
  lemma AllowedExactly(rate: int, burst: int, events: seq<Event>, ip: string, k: nat)
    requires k < |events| && IsRequest(events[k], ip)
    ensures AllowedKept(rate, burst, events, k) <==>
      FirstRequest(events, ip, k) || Room(false, rate, burst, events, ip, k)
  {
    hide Ask, CountAllowed, Conserved, Attained, FirstRequest, Kept, Refilled;
    var kept, now := Kept(rate, burst, events[..k]), events[k].at;
    KnownByItsRequests(rate, burst, events, ip, k);
    if ip !in kept {
      UnknownIsAllowed(rate, burst, BucketOf(kept, ip), now);
    } else {
      KnownIsAllowed(rate, burst, kept[ip], now);
      if AllowedKept(rate, burst, events, k) {
        forall i: nat | i <= k && IsRequest(events[i], ip) ensures RoomSince(false, rate, burst, events, ip, i, k) {
          AllowedHasRoom(rate, burst, events, ip, i, k);
        }
      }
      if Room(false, rate, burst, events, ip, k) {
        RoomIsUsed(rate, burst, events, ip, k);
      }
    }
  }

  lemma AllowedHasRoom(rate: int, burst: int, events: seq<Event>, ip: string, i: nat, k: nat)
    requires i <= k < |events| && IsRequest(events[i], ip) && IsRequest(events[k], ip) && burst >= 1
    requires ip in Kept(rate, burst, events[..k])
    requires
      var b := Kept(rate, burst, events[..k])[ip];
      b.tokens + (events[k].at - b.last) * rate as real >= 1.0
    ensures RoomSince(false, rate, burst, events, ip, i, k)
  {
    hide Conserved, Attained, Kept, Ask;
    if i == k {
      assert CountAllowed(false, rate, burst, events, ip, k, k) == 0;
      assert (events[k].at - events[k].at) * rate as real == 0.0;
    } else {
      hide CountAllowed;
      TokensAreConserved(rate, burst, events, ip, i, k);
      RoomFromTokens(rate, burst, CountAllowed(false, rate, burst, events, ip, i, k), Kept(rate, burst, events[..k])[ip],
                     events[i].at, events[k].at);
    }
  }

  lemma RoomIsUsed(rate: int, burst: int, events: seq<Event>, ip: string, k: nat)
    requires k < |events| && IsRequest(events[k], ip) && Room(false, rate, burst, events, ip, k)
    requires ip in Kept(rate, burst, events[..k])
    ensures
      var b := Kept(rate, burst, events[..k])[ip];
      burst >= 1 && b.tokens + (events[k].at - b.last) * rate as real >= 1.0
  {
    hide Attained, Kept, Ask;
    assert RoomSince(false, rate, burst, events, ip, k, k);
    assert CountAllowed(false, rate, burst, events, ip, k, k) == 0;
    assert (events[k].at - events[k].at) * rate as real == 0.0;
    hide CountAllowed;
    var i := TokensAreAttained(rate, burst, events, ip, k);
    assert RoomSince(false, rate, burst, events, ip, i, k);
    RoomFromTokens(rate, burst, CountAllowed(false, rate, burst, events, ip, i, k), Kept(rate, burst, events[..k])[ip],
                   events[i].at, events[k].at);
  }

  // --- when the bound fails -------------------------------------------------------

  const IP := "client"

  function Batch(n: nat, at: real): seq<Event> {
    if n == 0 then [] else Batch(n - 1, at) + [Request(IP, at)]
  }

  lemma {:induction false} BatchFacts(n: nat, at: real)
    ensures |Batch(n, at)| == n && forall k :: 0 <= k < n ==> Batch(n, at)[k] == Request(IP, at)
  {
    if n > 0 {
      BatchFacts(n - 1, at);
    }
  }

  lemma {:induction false} CountPrefix(sweeping: bool, rate: int, burst: int, events: seq<Event>, more: seq<Event>, i: nat, j: nat)
    requires j <= |events|
    ensures CountAllowed(sweeping, rate, burst, events + more, IP, i, j) == CountAllowed(sweeping, rate, burst, events, IP, i, j)
  {
    if i < j {
      CountPrefix(sweeping, rate, burst, events, more, i, j - 1);
      assert (events + more)[..j - 1] == events[..j - 1];
    }
  }

  lemma {:induction false} CountSplit(sweeping: bool, rate: int, burst: int, events: seq<Event>, i: nat, j: nat, k: nat)
    requires i <= j <= k <= |events|
    ensures CountAllowed(sweeping, rate, burst, events, IP, i, k)
         == CountAllowed(sweeping, rate, burst, events, IP, i, j) + CountAllowed(sweeping, rate, burst, events, IP, j, k)
  {
    if j < k {
      CountSplit(sweeping, rate, burst, events, i, j, k - 1);
    }
  }

  /** Requests at one time take one token each. */
  lemma SameTimeTakesOne(rate: int, burst: int, tokens: real, at: real)
    requires 1.0 <= tokens <= burst as real
    ensures Ask(rate, burst, true, Bucket(tokens, at), at) == Answer(true, Bucket(tokens - 1.0, at))
  {
    var b := Bucket(tokens, at);
    var gained := (at - b.last) * rate as real;
    assert at - b.last == 0.0;
    assert gained == 0.0;
    assert Refilled(rate, burst, b, at) == (if b.tokens + gained > burst as real then burst as real else b.tokens + gained);
  }

  /** After `n` requests at time `at`, all of them allowed, the client's bucket lacks `n` tokens. */
  ghost predicate Drained(rate: int, burst: int, events: seq<Event>, i: nat, n: nat, at: real)
    requires i + n == |events|
  {
    && CountAllowed(true, rate, burst, events, IP, i, i + n) == n
    && (n == 0 ==> IP !in Run(rate, burst, events))
    && (n > 0 ==>
          IP in Run(rate, burst, events) && Run(rate, burst, events)[IP] == Bucket(burst as real - n as real, at))
  }

  lemma OneMoreAllowed(rate: int, burst: int, before: seq<Event>, i: nat, n: nat, at: real)
    requires n < burst && i + n == |before| && Drained(rate, burst, before, i, n, at)
    ensures Drained(rate, burst, before + [Request(IP, at)], i, n + 1, at)
  {
    var events := before + [Request(IP, at)];
    assert events[..|before|] == before;
    CountPrefix(true, rate, burst, before, [Request(IP, at)], i, i + n);
    if n > 0 {
      SameTimeTakesOne(rate, burst, burst as real - n as real, at);
    }
  }

  /** An unknown client is allowed a whole burst at once. */
  lemma {:induction false} BatchIsAllowed(rate: int, burst: int, events: seq<Event>, at: real, n: nat)
    requires IP !in Run(rate, burst, events) && n <= burst
    ensures |Batch(n, at)| == n && Drained(rate, burst, events + Batch(n, at), |events|, n, at)
  {
    hide Refilled, Ask, AskClient;
    BatchFacts(n, at);
    if n == 0 {
      assert events + Batch(n, at) == events;
    } else {
      BatchIsAllowed(rate, burst, events, at, n - 1);
      var before := events + Batch(n - 1, at);
      assert events + Batch(n, at) == before + [Request(IP, at)];
      OneMoreAllowed(rate, burst, before, |events|, n - 1, at);
    }
  }

  /** Just over ten minutes, and less than one token short of a burst. */
  function Pause(rate: int): real {
    if rate <= 0 then 601.0 else 600.0 + 1.0 / (rate as real + 1.0)
  }

  lemma PauseIsShort(rate: int, burst: int)
    requires rate * 600 < burst && burst >= 1
    ensures 600.0 < Pause(rate) && Pause(rate) * rate as real < burst as real
  {
    var r := rate as real;
    if rate <= 0 {
      Product(601.0, -r);
    } else {
      var x := 1.0 / (r + 1.0);
      assert x * (r + 1.0) == 1.0;
      assert x > 0.0;
      assert (600.0 + x) * r == 600.0 * r + x * r;
      assert x * r == 1.0 - x;
      assert 600.0 * r == (rate * 600) as real;
    }
  }

  function TwoBursts(burst: nat, t: real): seq<Event> {
    Batch(burst, 0.0) + [Sweep(t)] + Batch(burst, t)
  }

  lemma TwoBurstsFacts(burst: nat, t: real)
    requires t > 600.0 && burst >= 1
    ensures
      var events := TwoBursts(burst, t);
      && |events| == 2 * burst + 1 && Ordered(events)
      && events[0] == Request(IP, 0.0) && events[2 * burst] == Request(IP, t)
  {
    BatchFacts(burst, 0.0);
    BatchFacts(burst, t);
  }

  lemma SweepForgets(rate: int, burst: int, events: seq<Event>, t: real)
    requires IP in Run(rate, burst, events) && Run(rate, burst, events)[IP].last < t - IDLE_SECONDS
    ensures IP !in Run(rate, burst, events + [Sweep(t)])
  {
    assert (events + [Sweep(t)])[..|events|] == events;
  }

  lemma FirstBurstIsAllowed(rate: int, burst: nat, more: seq<Event>)
    requires burst >= 1
    ensures |Batch(burst, 0.0)| == burst
    ensures CountAllowed(true, rate, burst, Batch(burst, 0.0) + more, IP, 0, burst) == burst
    ensures IP in Run(rate, burst, Batch(burst, 0.0)) && Run(rate, burst, Batch(burst, 0.0))[IP].last == 0.0
  {
    hide Refilled, Ask, AskClient, CountAllowed, Step;
    var first := Batch(burst, 0.0);
    var none: seq<Event> := [];
    assert IP !in Run(rate, burst, none);
    BatchIsAllowed(rate, burst, none, 0.0, burst);
    assert none + first == first;
    CountPrefix(true, rate, burst, first, more, 0, burst);
  }

  lemma SecondBurstIsAllowed(rate: int, burst: nat, t: real)
    requires t > 600.0 && burst >= 1
    ensures |TwoBursts(burst, t)| == 2 * burst + 1
    ensures CountAllowed(true, rate, burst, TwoBursts(burst, t), IP, burst + 1, 2 * burst + 1) == burst
  {
    hide Refilled, Ask, AskClient, CountAllowed;
    TwoBurstsFacts(burst, t);
    BatchFacts(burst, 0.0);
    FirstBurstIsAllowed(rate, burst, []);
    SweepForgets(rate, burst, Batch(burst, 0.0), t);
    BatchIsAllowed(rate, burst, Batch(burst, 0.0) + [Sweep(t)], t, burst);
  }

  /** A burst, a sweep after the pause, and another burst: all of it is allowed. */
  lemma TwoBurstsAreAllowed(rate: int, burst: nat, t: real)
    requires t > 600.0 && burst >= 1
    ensures |TwoBursts(burst, t)| == 2 * burst + 1
    ensures CountAllowed(true, rate, burst, TwoBursts(burst, t), IP, 0, 2 * burst + 1) >= 2 * burst
  {
    hide CountAllowed;
    var events := TwoBursts(burst, t);
    SecondBurstIsAllowed(rate, burst, t);
    assert Batch(burst, 0.0) + ([Sweep(t)] + Batch(burst, t)) == events;
    FirstBurstIsAllowed(rate, burst, [Sweep(t)] + Batch(burst, t));
    CountSplit(true, rate, burst, events, 0, burst, 2 * burst + 1);
    CountSplit(true, rate, burst, events, burst, burst + 1, 2 * burst + 1);
  }

  lemma SlowRefillOverflows(rate: int, burst: int)
    requires rate * 600 < burst && burst >= 1
    ensures !WindowBounded(true, rate, burst)
  {
    hide Refilled, Ask, AskClient, Pause, TwoBursts, CountAllowed;
    var t := Pause(rate);
    var events := TwoBursts(burst, t);
    PauseIsShort(rate, burst);
    TwoBurstsFacts(burst, t);
    TwoBurstsAreAllowed(rate, burst, t);
    SameProduct(events[2 * burst].at - events[0].at, t, rate as real);
    assert !InBound(true, rate, burst, events, IP, 0, 2 * burst);
  }

  /** With no burst the very first request is allowed all the same. */
  lemma NoBurstOverflows(sweeping: bool, rate: int, burst: int)
    requires burst < 1
    ensures !WindowBounded(sweeping, rate, burst)
  {
    var events := [Request(IP, 0.0)];
    assert events[..0] == [];
    assert CountAllowed(sweeping, rate, burst, events, IP, 0, 1) == 1;
    assert !InBound(sweeping, rate, burst, events, IP, 0, 0);
  }

  /** A negative rate takes tokens away, but not those of the first request. */
  lemma NegativeRateOverflows(rate: int, burst: int)
    requires rate < 0 && burst >= 1
    ensures !WindowBounded(false, rate, burst)
  {
    var t := burst as real;
    var events := [Request(IP, 0.0), Request(IP, t)];
    assert events[..0] == [];
    CountSplit(false, rate, burst, events, 0, 1, 2);
    assert CountAllowed(false, rate, burst, events, IP, 0, 1) == 1;
    Product(t, -1.0 - rate as real);
    assert t * rate as real == -(t * (-1.0 - rate as real)) - t;
    assert !InBound(false, rate, burst, events, IP, 0, 1);
  }

  /**
   The sliding-window bound: over every ordered sequence of requests and sweeps, a client is
   allowed at most `burst + rate * (e - s)` requests between its requests at times s and e,
   exactly when ten minutes refill at least one whole burst.
   */
  lemma WindowBoundedExactly(rate: int, burst: int)
    ensures WindowBounded(true, rate, burst) <==> rate * 600 >= burst >= 1
  {
    if burst < 1 {
      NoBurstOverflows(true, rate, burst);
    } else if rate * 600 < burst {
      SlowRefillOverflows(rate, burst);
    } else {
      forall events, ip, i: nat, j: nat
        | i <= j < |events| && Ordered(events) && IsRequest(events[i], ip) && IsRequest(events[j], ip)
        ensures InBound(true, rate, burst, events, ip, i, j)
      {
        KeptInBound(rate, burst, events, ip, i, j);
        SameCount(rate, burst, events, ip, i, j + 1);
      }
    }
  }

  /** Without the cleanup loop the bound needs no more than a burst and a rate that is not negative. */
  lemma KeptWindowBoundedExactly(rate: int, burst: int)
    ensures WindowBounded(false, rate, burst) <==> rate >= 0 && burst >= 1
  {
    if burst < 1 {
      NoBurstOverflows(false, rate, burst);
    } else if rate < 0 {
      NegativeRateOverflows(rate, burst);
    } else {
      forall events, ip, i: nat, j: nat
        | i <= j < |events| && Ordered(events) && IsRequest(events[i], ip) && IsRequest(events[j], ip)
        ensures InBound(false, rate, burst, events, ip, i, j)
      {
        KeptInBound(rate, burst, events, ip, i, j);
      }
    }
  }

  /** A request, a sweep and a later request tell the limiters apart if the kept bucket is empty by then. */
  lemma EmptyBucketIsForgotten(rate: int, burst: int, t: real) returns (events: seq<Event>)
    requires t > 600.0 && Refilled(rate, burst, Bucket(burst as real - 1.0, 0.0), t) < 1.0
    ensures |events| == 3 && Ordered(events) && events[2].Request?
    ensures Allowed(rate, burst, events, 2) != AllowedKept(rate, burst, events, 2)
  {
    hide Refilled;
    var first := [Request(IP, 0.0)];
    events := [Request(IP, 0.0), Sweep(t), Request(IP, t)];
    var none: seq<Event> := [];
    var before := first + [Sweep(t)];
    assert first[..0] == none && before[..1] == first && events[..2] == before;
    assert Run(rate, burst, none) == map[] && Kept(rate, burst, none) == map[];
    assert Run(rate, burst, first) == map[IP := Bucket(burst as real - 1.0, 0.0)];
    assert Kept(rate, burst, first) == map[IP := Bucket(burst as real - 1.0, 0.0)];
    SweepForgets(rate, burst, first, t);
    assert Kept(rate, burst, before) == Kept(rate, burst, first);
  }

  /** Without a burst, or with a negative rate, the kept bucket is empty some time after ten minutes. */
  lemma EmptiesWithoutRefill(rate: int, burst: int) returns (t: real)
    requires rate < 0 || burst < 1
    ensures t > 600.0 && Refilled(rate, burst, Bucket(burst as real - 1.0, 0.0), t) < 1.0
  {
    if burst < 1 {
      t := 601.0;
    } else {
      t := 601.0 + burst as real;
      Product(t, -1.0 - rate as real);
      assert t * rate as real == -(t * (-1.0 - rate as real)) - t;
    }
  }

  ghost predicate Unobservable(rate: int, burst: int) {
    forall events: seq<Event>, k: nat | Ordered(events) && k < |events| && events[k].Request? ::
      Allowed(rate, burst, events, k) == AllowedKept(rate, burst, events, k)
  }

  /** Eviction is unobservable over all sequences of events exactly when ten minutes refill a burst, of at least 1. */
  lemma EvictionUnobservableExactly(rate: int, burst: int)
    ensures Unobservable(rate, burst) <==> rate * 600 >= burst >= 1
  {
    if rate * 600 >= burst >= 1 {
      forall events: seq<Event>, k: nat | Ordered(events) && k < |events| && events[k].Request?
        ensures Allowed(rate, burst, events, k) == AllowedKept(rate, burst, events, k)
      {
        EvictionIsUnobservable(rate, burst, events, k);
      }
    } else if rate < 0 || burst < 1 {
      var t := EmptiesWithoutRefill(rate, burst);
      var events := EmptyBucketIsForgotten(rate, burst, t);
    } else {
      SlowRefillOverflows(rate, burst);
      KeptWindowBoundedExactly(rate, burst);
      var events, ip, i: nat, j: nat :| i <= j < |events| && Ordered(events) && IsRequest(events[i], ip)
        && IsRequest(events[j], ip) && !InBound(true, rate, burst, events, ip, i, j);
      assert InBound(false, rate, burst, events, ip, i, j);
      var k := FirstDifference(rate, burst, events, ip, i, j + 1);
    }
  }

  /** Two counts that differ, differ at some request. */
  lemma {:induction false} FirstDifference(rate: int, burst: int, events: seq<Event>, ip: string, i: nat, j: nat) returns (k: nat)
    requires j <= |events|
    requires CountAllowed(true, rate, burst, events, ip, i, j) != CountAllowed(false, rate, burst, events, ip, i, j)
    ensures k < |events| && events[k].Request? && Allowed(rate, burst, events, k) != AllowedKept(rate, burst, events, k)
  {
    k := j - 1;
    if CountAllowed(true, rate, burst, events, ip, i, j - 1) != CountAllowed(false, rate, burst, events, ip, i, j - 1) {
      k := FirstDifference(rate, burst, events, ip, i, j - 1);
    }
  }

  // ---------------------------------------------------------------------------
  // When the cleanup loop keeps to the rule
  // ---------------------------------------------------------------------------

  ghost predicate SameUntil(rate: int, burst: int, events: seq<Event>, n: nat)
    requires n <= |events|
  {
    forall m: nat :: m < n && events[m].Request? ==> Allowed(rate, burst, events, m) == AllowedKept(rate, burst, events, m)
  }

  lemma {:induction false} CountsAgree(rate: int, burst: int, events: seq<Event>, ip: string, i: nat, j: nat)
    requires j <= |events| && SameUntil(rate, burst, events, j)
    ensures CountAllowed(true, rate, burst, events, ip, i, j) == CountAllowed(false, rate, burst, events, ip, i, j)
  {
    hide Allowed, AllowedKept;
    if i < j {
      CountsAgree(rate, burst, events, ip, i, j - 1);
    }
  }

  lemma RoomAgrees(rate: int, burst: int, events: seq<Event>, ip: string, k: nat)
    requires k < |events| && SameUntil(rate, burst, events, k)
    ensures Room(true, rate, burst, events, ip, k) <==> Room(false, rate, burst, events, ip, k)
  {
    hide SameUntil, CountAllowed;
    forall i: nat | i <= k
      ensures RoomSince(true, rate, burst, events, ip, i, k) <==> RoomSince(false, rate, burst, events, ip, i, k)
    {
      CountsAgree(rate, burst, events, ip, i, k);
    }
  }

  /** The first request that is answered differently. */
  lemma {:induction false} FirstDifferent(rate: int, burst: int, events: seq<Event>, n: nat) returns (k: nat)
    requires n <= |events| && !SameUntil(rate, burst, events, n)
    ensures k < n && events[k].Request? && SameUntil(rate, burst, events, k)
    ensures Allowed(rate, burst, events, k) != AllowedKept(rate, burst, events, k)
  {
    hide Allowed, AllowedKept;
    if SameUntil(rate, burst, events, n - 1) {
      k := n - 1;
    } else {
      k := FirstDifferent(rate, burst, events, n - 1);
    }
  }

  /** Sweeping only forgets. */
  lemma {:induction false} SweptIsKnown(rate: int, burst: int, events: seq<Event>)
    ensures Run(rate, burst, events).Keys <= Kept(rate, burst, events).Keys
  {
    hide AskClient;
    if events != [] {
      SweptIsKnown(rate, burst, events[..|events| - 1]);
    }
  }

  /** With the cleanup loop, every request is allowed exactly when the rule permits it. */
  ghost predicate KeepsToRule(rate: int, burst: int) {
    forall events, ip, k: nat | k < |events| && Ordered(events) && IsRequest(events[k], ip) ::
      Allowed(rate, burst, events, k) <==> FirstRequest(events, ip, k) || Room(true, rate, burst, events, ip, k)
  }

  lemma FirstIsAllowed(rate: int, burst: int, events: seq<Event>, ip: string, k: nat)
    requires k < |events| && IsRequest(events[k], ip) && FirstRequest(events, ip, k)
    ensures Allowed(rate, burst, events, k)
  {
    hide FirstRequest, Run, Kept;
    KnownByItsRequests(rate, burst, events, ip, k);
    SweptIsKnown(rate, burst, events[..k]);
  }

  /** Over all ordered runs it does exactly when ten minutes refill a whole burst, of at least 1. */
  lemma KeepsToRuleExactly(rate: int, burst: int)
    ensures KeepsToRule(rate, burst) <==> rate * 600 >= burst >= 1
  {
    hide Allowed, AllowedKept, FirstRequest, Room;
    EvictionUnobservableExactly(rate, burst);
    if rate * 600 >= burst >= 1 {
      forall events, ip, k: nat | k < |events| && Ordered(events) && IsRequest(events[k], ip)
        ensures Allowed(rate, burst, events, k) <==> FirstRequest(events, ip, k) || Room(true, rate, burst, events, ip, k)
      {
        AllowedExactly(rate, burst, events, ip, k);
        RoomAgrees(rate, burst, events, ip, k);
      }
    } else {
      var events: seq<Event>, n: nat :| Ordered(events) && n < |events| && events[n].Request?
        && Allowed(rate, burst, events, n) != AllowedKept(rate, burst, events, n);
      assert !SameUntil(rate, burst, events, n + 1);
      var k := FirstDifferent(rate, burst, events, n + 1);
      var ip := events[k].ip;
      AllowedExactly(rate, burst, events, ip, k);
      RoomAgrees(rate, burst, events, ip, k);
      if FirstRequest(events, ip, k) {
        FirstIsAllowed(rate, burst, events, ip, k);
      }
    }
  }
}
