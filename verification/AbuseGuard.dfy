/** relay/abuse_guard.go: lazily refilled token buckets with idle eviction.
    Time is in seconds as a real; every step carries its own clock reading. */
module AbuseGuard {

  datatype Limit = Limit(perMinute: int, burst: int) {
    /** A non-positive rate or burst switches the limit off. */
    predicate Active() { perMinute > 0 && burst > 0 }

    function RatePerSec(): real { perMinute as real / 60.0 }

    /** Tokens refilled over a stretch of time. */
    function Earned(elapsed: real): real { elapsed * RatePerSec() }

    function Full(): real { burst as real }
  }

  datatype Bucket = Bucket(tokens: real, lastRefill: real, lastSeen: real)

  type Buckets = map<string, Bucket>

  function Refill(b: Bucket, l: Limit, now: real): Bucket {
    var elapsed := now - b.lastRefill;
    if elapsed > 0.0 then
      var tokens := b.tokens + l.Earned(elapsed);
      b.(tokens := if tokens > l.Full() then l.Full() else tokens, lastRefill := now)
    else b
  }

  /** One locked block of `allow`: the new map and the verdict. */
  function Allow(m: Buckets, key: string, l: Limit, now: real): (Buckets, bool) {
    if !l.Active() then (m, true)
    else
      var b := if key in m then m[key] else Bucket(l.Full(), now, now);
      var r := Refill(b, l, now).(lastSeen := now);
      if r.tokens < 1.0 then (m[key := r], false)
      else (m[key := r.(tokens := r.tokens - 1.0)], true)
  }

  /** One tick of the cleanup loop. */
  function Evict(m: Buckets, now: real, ttl: real): Buckets {
    map k | k in m && !(m[k].lastSeen < now - ttl) :: m[k]
  }

  // ----- Runs -----

  datatype Event =
    | Request(key: string, now: real)
    | Sweep(now: real)
    | Clear(key: string, now: real)

  type Limits = string -> Limit

  ghost predicate Monotone(evs: seq<Event>) {
    forall i, j :: 0 <= i <= j < |evs| ==> evs[i].now <= evs[j].now
  }

  /** `forgets` says whether the background sweep deletes idle buckets. */
  function Next(m: Buckets, lims: Limits, ttl: real, forgets: bool, e: Event): Buckets {
    match e
    case Request(k, now) => Allow(m, k, lims(k), now).0
    case Sweep(now) => if forgets then Evict(m, now, ttl) else m
    case Clear(k, _) => m - {k}
  }

  function After(lims: Limits, ttl: real, forgets: bool, evs: seq<Event>): Buckets {
    if evs == [] then map[]
    else Next(After(lims, ttl, forgets, evs[..|evs|-1]), lims, ttl, forgets, evs[|evs|-1])
  }

  /** The verdict of the request at index i of the run. */
  predicate Granted(lims: Limits, ttl: real, forgets: bool, evs: seq<Event>, i: nat)
    requires i < |evs| && evs[i].Request?
  {
    Allow(After(lims, ttl, forgets, evs[..i]), evs[i].key, lims(evs[i].key), evs[i].now).1
  }

  /** A bucket left idle for the whole TTL would be full again. */
  predicate RefillsWithinTTL(l: Limit, ttl: real) {
    l.Active() ==> l.Earned(ttl) >= l.Full()
  }

  // ----- Eviction is unobservable -----

  ghost predicate WellFormed(m: Buckets, lims: Limits, now: real) {
    forall k :: k in m ==>
      && lims(k).Active()
      && 0.0 <= m[k].tokens <= lims(k).Full()
      && m[k].lastRefill == m[k].lastSeen <= now
  }

  lemma EarnedAdds(l: Limit, x: real, y: real)
    ensures l.Earned(x + y) == l.Earned(x) + l.Earned(y)
  {
    var r := l.RatePerSec();
    assert (x + y) * r == x * r + y * r;
  }

  lemma EarnedGrows(l: Limit, x: real, y: real)
    requires l.Active() && x <= y
    ensures l.Earned(x) <= l.Earned(y) && l.Earned(0.0) == 0.0
  {
    var r := l.RatePerSec();
    assert (y - x) * r >= 0.0;
    EarnedAdds(l, x, y - x);
    assert x + (y - x) == y;
  }

  lemma RefillBounds(b: Bucket, l: Limit, now: real)
    requires l.Active() && 0.0 <= b.tokens <= l.Full() && b.lastRefill <= now
    ensures 0.0 <= Refill(b, l, now).tokens <= l.Full() && Refill(b, l, now).lastRefill == now
  {
    hide Limit.Earned;
    EarnedGrows(l, 0.0, now - b.lastRefill);
  }

  lemma {:induction false} AfterWellFormed(lims: Limits, ttl: real, forgets: bool, evs: seq<Event>, now: real)
    requires Monotone(evs) && (evs != [] ==> evs[|evs|-1].now <= now)
    ensures WellFormed(After(lims, ttl, forgets, evs), lims, now)
  {
    if evs != [] {
      var e, m := evs[|evs|-1], After(lims, ttl, forgets, evs[..|evs|-1]);
      AfterWellFormed(lims, ttl, forgets, evs[..|evs|-1], e.now);
      hide After;
      if e.Request? { AllowKeepsWellFormed(m, lims, e.key, e.now); }
    }
  }

  lemma AllowKeepsWellFormed(m: Buckets, lims: Limits, key: string, now: real)
    requires WellFormed(m, lims, now)
    ensures WellFormed(Allow(m, key, lims(key), now).0, lims, now)
  {
    hide Refill;
    var l := lims(key);
    if l.Active() {
      var b := if key in m then m[key] else Bucket(l.Full(), now, now);
      RefillBounds(b, l, now);
    }
  }

  /** An untouched bucket whose refill has reached the burst again. */
  predicate FullBy(b: Bucket, l: Limit, now: real) {
    b.lastRefill < now && b.tokens + l.Earned(now - b.lastRefill) >= l.Full()
  }

  /** `m` forgets and `u` does not: they agree on a key, or `u` holds it full and `m` lacks it. */
  predicate Refines(m: Buckets, u: Buckets, key: string, l: Limit, now: real) {
    if key in m then key in u && m[key] == u[key] else key in u ==> FullBy(u[key], l, now)
  }

  lemma LaterStillFull(b: Bucket, l: Limit, now: real, later: real)
    requires l.Active() && now <= later && FullBy(b, l, now)
    ensures FullBy(b, l, later)
  {
    EarnedGrows(l, now - b.lastRefill, later - b.lastRefill);
  }

  lemma IdleIsFull(b: Bucket, l: Limit, now: real, ttl: real)
    requires l.Active() && 0.0 <= b.tokens && b.lastRefill < now - ttl
    requires 0.0 <= ttl && RefillsWithinTTL(l, ttl)
    ensures FullBy(b, l, now)
  {
    EarnedGrows(l, ttl, now - b.lastRefill);
  }

  /** A full bucket and a forgotten one behave alike. */
  lemma AllowOnFull(m: Buckets, u: Buckets, lims: Limits, key: string, now: real)
    requires Refines(m, u, key, lims(key), now) && WellFormed(u, lims, now)
    ensures Allow(m, key, lims(key), now).1 == Allow(u, key, lims(key), now).1
    ensures Refines(Allow(m, key, lims(key), now).0, Allow(u, key, lims(key), now).0, key, lims(key), now)
  {
    var l := lims(key);
    if l.Active() && key in u && key !in m {
      assert Refill(u[key], l, now).(lastSeen := now) == Bucket(l.Full(), now, now);
    }
  }

  lemma OtherKeysStay(m: Buckets, lims: Limits, ttl: real, forgets: bool, e: Event, key: string)
    requires (e.Request? || e.Clear?) && e.key != key
    ensures var m' := Next(m, lims, ttl, forgets, e); (key in m' <==> key in m) && (key in m ==> m'[key] == m[key])
  {
    hide Refill;
  }

  lemma StepRefines(m: Buckets, u: Buckets, lims: Limits, ttl: real, e: Event, key: string)
    requires Refines(m, u, key, lims(key), e.now) && WellFormed(u, lims, e.now)
    requires 0.0 <= ttl && RefillsWithinTTL(lims(key), ttl)
    ensures Refines(Next(m, lims, ttl, true, e), Next(u, lims, ttl, false, e), key, lims(key), e.now)
  {
    hide Allow, FullBy;
    match e {
      case Request(k, _) =>
        if k == key { AllowOnFull(m, u, lims, k, e.now); } else {
          OtherKeysStay(m, lims, ttl, true, e, key);
          OtherKeysStay(u, lims, ttl, false, e, key);
        }
      case Sweep(_) =>
        if key in m && key !in Evict(m, e.now, ttl) { IdleIsFull(u[key], lims(key), e.now, ttl); }
      case Clear(_, _) =>
    }
  }

  lemma {:induction false} RunRefines(lims: Limits, ttl: real, evs: seq<Event>, key: string, now: real)
    requires Monotone(evs) && (evs != [] ==> evs[|evs|-1].now <= now)
    requires 0.0 <= ttl && RefillsWithinTTL(lims(key), ttl)
    ensures Refines(After(lims, ttl, true, evs), After(lims, ttl, false, evs), key, lims(key), now)
  {
    if evs != [] {
      var e, before := evs[|evs|-1], evs[..|evs|-1];
      RunRefines(lims, ttl, before, key, e.now);
      AfterWellFormed(lims, ttl, false, before, e.now);
      StepRefines(After(lims, ttl, true, before), After(lims, ttl, false, before), lims, ttl, e, key);
      AfterWellFormed(lims, ttl, false, evs, e.now);
      hide FullBy, Next;
      var u := After(lims, ttl, false, evs);
      if key in u && key !in After(lims, ttl, true, evs) { LaterStillFull(u[key], lims(key), e.now, now); }
    }
  }

  /** Refinement, key by key: if the key's own pair refills within the TTL, each of its verdicts is that of a
      map that never forgets, whatever the other keys' pairs are. */
  lemma EvictionIsUnobservable(lims: Limits, ttl: real, evs: seq<Event>, i: nat)
    requires Monotone(evs) && i < |evs| && evs[i].Request?
    requires 0.0 <= ttl && RefillsWithinTTL(lims(evs[i].key), ttl)
    ensures Granted(lims, ttl, true, evs, i) == Granted(lims, ttl, false, evs, i)
  {
    RunRefines(lims, ttl, evs[..i], evs[i].key, evs[i].now);
    AfterWellFormed(lims, ttl, false, evs[..i], evs[i].now);
    AllowOnFull(After(lims, ttl, true, evs[..i]), After(lims, ttl, false, evs[..i]), lims, evs[i].key, evs[i].now);
  }

  // ----- The verdict is exactly a sliding-window bound -----

  predicate IsRequest(evs: seq<Event>, key: string, i: nat)
    requires i < |evs|
  {
    evs[i].Request? && evs[i].key == key
  }

  /** No event from i on, up to but excluding j, clears the key. */
  ghost predicate Uncleared(evs: seq<Event>, key: string, i: nat, j: nat)
    requires j <= |evs|
  {
    forall k :: i <= k < j && evs[k].Clear? ==> evs[k].key != key
  }

  /** A request of the key at i, and no clearing since. */
  ghost predicate Window(evs: seq<Event>, key: string, i: nat, j: nat)
    requires i < |evs| && j <= |evs|
  {
    IsRequest(evs, key, i) && Uncleared(evs, key, i, j)
  }

  /** Granted requests for `key` among the events i..j-1. */
  function Grants(lims: Limits, ttl: real, forgets: bool, evs: seq<Event>, key: string, i: nat, j: nat): nat
    requires i <= j <= |evs|
    decreases j
  {
    if i == j then 0
    else Grants(lims, ttl, forgets, evs, key, i, j - 1)
         + if IsRequest(evs, key, j - 1) && Granted(lims, ttl, forgets, evs, j - 1) then 1 else 0
  }

  /** What the window from event i to the instant `at` still leaves to event n. */
  function Headroom(lims: Limits, ttl: real, evs: seq<Event>, key: string, i: nat, n: nat, at: real): real
    requires i < |evs| && i <= n <= |evs|
  {
    lims(key).Full() + lims(key).Earned(at - evs[i].now) - Grants(lims, ttl, false, evs, key, i, n) as real
  }

  lemma HeadroomGrows(lims: Limits, ttl: real, evs: seq<Event>, key: string, i: nat, n: nat, at: real, later: real)
    requires i < |evs| && i <= n <= |evs| && lims(key).Active()
    ensures Headroom(lims, ttl, evs, key, i, n, later)
         == Headroom(lims, ttl, evs, key, i, n, at) + lims(key).Earned(later - at)
  {
    EarnedAdds(lims(key), at - evs[i].now, later - at);
    assert at - evs[i].now + (later - at) == later - evs[i].now;
  }

  /** The tokens of `key`'s bucket after n events, and a window that explains them. */
  ghost predicate TokensAre(lims: Limits, ttl: real, evs: seq<Event>, key: string, n: nat, tokens: real, at: real, w: nat)
    requires n <= |evs|
  {
    && (forall i :: 0 <= i < n && Window(evs, key, i, n) ==> tokens <= Headroom(lims, ttl, evs, key, i, n, at))
    && w < n && Window(evs, key, w, n) && tokens == Headroom(lims, ttl, evs, key, w, n, at)
  }

  ghost predicate NoWindow(evs: seq<Event>, key: string, n: nat)
    requires n <= |evs|
  {
    forall i :: 0 <= i < n ==> !Window(evs, key, i, n)
  }

  lemma EmptyWindow(lims: Limits, ttl: real, evs: seq<Event>, key: string, n: nat)
    requires n < |evs|
    ensures Headroom(lims, ttl, evs, key, n, n, evs[n].now) == lims(key).Full()
  {
    assert lims(key).Earned(0.0) == 0.0;
  }

  lemma RefillIsMin(b: Bucket, l: Limit, now: real)
    requires l.Active() && b.tokens <= l.Full() && b.lastRefill <= now
    ensures var refilled := b.tokens + l.Earned(now - b.lastRefill);
      Refill(b, l, now).tokens == if refilled > l.Full() then l.Full() else refilled
  {
    hide Limit.Earned;
    EarnedGrows(l, 0.0, now - b.lastRefill);
  }

  /** The refilled bucket a request sees holds the least headroom over all windows ending now. */
  lemma RefilledTokens(lims: Limits, ttl: real, evs: seq<Event>, key: string, n: nat, b: Bucket, w0: nat) returns (w: nat)
    requires Monotone(evs) && n < |evs| && lims(key).Active() && IsRequest(evs, key, n)
    requires var u := After(lims, ttl, false, evs[..n]);
      if key in u then b == u[key] && TokensAre(lims, ttl, evs, key, n, b.tokens, b.lastRefill, w0)
      else b == Bucket(lims(key).Full(), evs[n].now, evs[n].now) && NoWindow(evs, key, n)
    ensures w <= n && Window(evs, key, w, n)
    ensures var tokens := Refill(b, lims(key), evs[n].now).tokens;
      && (forall i :: 0 <= i <= n && Window(evs, key, i, n) ==> tokens <= Headroom(lims, ttl, evs, key, i, n, evs[n].now))
      && tokens == Headroom(lims, ttl, evs, key, w, n, evs[n].now)
  {
    hide Limit.Earned, Headroom;
    var now := evs[n].now;
    var l := lims(key);
    AfterWellFormed(lims, ttl, false, evs[..n], now);
    var tokens := Refill(b, l, now).tokens;
    RefillIsMin(b, l, now);
    EmptyWindow(lims, ttl, evs, key, n);
    w := n;
    if key in After(lims, ttl, false, evs[..n]) {
      forall i | 0 <= i < n && Window(evs, key, i, n)
        ensures tokens <= Headroom(lims, ttl, evs, key, i, n, now)
      {
        HeadroomGrows(lims, ttl, evs, key, i, n, b.lastRefill, now);
      }
      HeadroomGrows(lims, ttl, evs, key, w0, n, b.lastRefill, now);
      w := if tokens == l.Full() then n else w0;
    }
  }

  /** One more event moves every window's headroom by what that event was granted. */
  lemma HeadroomStep(lims: Limits, ttl: real, evs: seq<Event>, key: string, n: nat, at: real)
    requires 0 < n <= |evs|
    ensures var g := if IsRequest(evs, key, n - 1) && Granted(lims, ttl, false, evs, n - 1) then 1.0 else 0.0;
      forall i :: 0 <= i < n ==> Headroom(lims, ttl, evs, key, i, n, at) == Headroom(lims, ttl, evs, key, i, n - 1, at) - g
  {
  }

  /** An event that is no request of the key either clears it or leaves its bucket alone. */
  lemma OtherEventLeaves(lims: Limits, ttl: real, evs: seq<Event>, key: string, n: nat)
    requires 0 < n <= |evs| && !IsRequest(evs, key, n - 1)
    ensures var before, u := After(lims, ttl, false, evs[..n-1]), After(lims, ttl, false, evs[..n]);
      if evs[n-1].Clear? && evs[n-1].key == key then key !in u
      else (key in u <==> key in before) && (key in u ==> u[key] == before[key])
  {
    hide Refill;
    assert evs[..n][..n-1] == evs[..n-1];
  }

  lemma WindowsAfter(evs: seq<Event>, key: string, n: nat)
    requires 0 < n <= |evs|
    ensures forall i :: 0 <= i < n - 1 ==>
      (Window(evs, key, i, n) <==> Window(evs, key, i, n - 1) && !(evs[n-1].Clear? && evs[n-1].key == key))
    ensures Window(evs, key, n - 1, n) <==> IsRequest(evs, key, n - 1)
    ensures !evs[n-1].Clear? ==> forall i :: 0 <= i < n ==> (Window(evs, key, i, n) <==> Window(evs, key, i, n - 1))
  {
    forall i | 0 <= i < n - 1
      ensures Window(evs, key, i, n) <==> Window(evs, key, i, n - 1) && !(evs[n-1].Clear? && evs[n-1].key == key)
    {
      assert Uncleared(evs, key, i, n) <==> Uncleared(evs, key, i, n - 1) && !(evs[n-1].Clear? && evs[n-1].key == key);
    }
  }

  lemma {:induction false} TokensExact(lims: Limits, ttl: real, evs: seq<Event>, key: string, n: nat) returns (w: nat)
    requires Monotone(evs) && n <= |evs| && lims(key).Active()
    ensures var u := After(lims, ttl, false, evs[..n]);
      if key in u then TokensAre(lims, ttl, evs, key, n, u[key].tokens, u[key].lastRefill, w) else NoWindow(evs, key, n)
  {
    hide After, Headroom, Granted, Refill, Window;
    w := 0;
    if n == 0 {
      NothingAtFirst(lims, ttl, evs, key);
    } else {
      var before := After(lims, ttl, false, evs[..n-1]);
      var now := evs[n-1].now;
      w := TokensExact(lims, ttl, evs, key, n - 1);
      WindowsAfter(evs, key, n);
      if IsRequest(evs, key, n - 1) {
        var b := if key in before then before[key] else Bucket(lims(key).Full(), now, now);
        w := RefilledTokens(lims, ttl, evs, key, n - 1, b, w);
        HeadroomStep(lims, ttl, evs, key, n, now);
        TokensAfterRequest(lims, ttl, evs, key, n, b);
      } else {
        OtherEventLeaves(lims, ttl, evs, key, n);
        if key in before { HeadroomStep(lims, ttl, evs, key, n, before[key].lastRefill); }
      }
    }
  }

  lemma NothingAtFirst(lims: Limits, ttl: real, evs: seq<Event>, key: string)
    ensures key !in After(lims, ttl, false, evs[..0])
  {
  }

  lemma TokensAfterRequest(lims: Limits, ttl: real, evs: seq<Event>, key: string, n: nat, b: Bucket)
    requires Monotone(evs) && 0 < n <= |evs| && lims(key).Active() && IsRequest(evs, key, n - 1)
    requires var before := After(lims, ttl, false, evs[..n-1]);
      b == if key in before then before[key] else Bucket(lims(key).Full(), evs[n-1].now, evs[n-1].now)
    ensures var u := After(lims, ttl, false, evs[..n]);
      && key in u && u[key].lastRefill == evs[n-1].now
      && u[key].tokens == Refill(b, lims(key), evs[n-1].now).tokens
                          - if Granted(lims, ttl, false, evs, n - 1) then 1.0 else 0.0
  {
    assert evs[..n][..n-1] == evs[..n-1];
    AfterWellFormed(lims, ttl, false, evs[..n-1], evs[n-1].now);
  }

  /** A request is granted exactly when, counting it, no window that starts at an earlier (or this)
      request of its key and holds no clearing of the key exceeds burst + length * rate. */
  lemma GrantedIffEveryWindowHasRoom(lims: Limits, ttl: real, evs: seq<Event>, n: nat)
    requires Monotone(evs) && n < |evs| && evs[n].Request? && lims(evs[n].key).Active()
    requires 0.0 <= ttl && RefillsWithinTTL(lims(evs[n].key), ttl)
    ensures Granted(lims, ttl, true, evs, n) <==>
      forall i :: 0 <= i <= n && Window(evs, evs[n].key, i, n) ==>
        Grants(lims, ttl, true, evs, evs[n].key, i, n) as real + 1.0
          <= lims(evs[n].key).Full() + lims(evs[n].key).Earned(evs[n].now - evs[i].now)
  {
    hide Limit.Earned, Window;
    var key, now := evs[n].key, evs[n].now;
    var u := After(lims, ttl, false, evs[..n]);
    var w0 := TokensExact(lims, ttl, evs, key, n);
    var b := if key in u then u[key] else Bucket(lims(key).Full(), now, now);
    var w := RefilledTokens(lims, ttl, evs, key, n, b, w0);
    EvictionIsUnobservable(lims, ttl, evs, n);
    forall i | 0 <= i <= n
      ensures Grants(lims, ttl, true, evs, key, i, n) == Grants(lims, ttl, false, evs, key, i, n)
    {
      SameGrants(lims, ttl, evs, key, i, n);
    }
  }

  lemma {:induction false} SameGrants(lims: Limits, ttl: real, evs: seq<Event>, key: string, i: nat, j: nat)
    requires Monotone(evs) && i <= j <= |evs|
    requires 0.0 <= ttl && RefillsWithinTTL(lims(key), ttl)
    ensures Grants(lims, ttl, true, evs, key, i, j) == Grants(lims, ttl, false, evs, key, i, j)
  {
    if i < j {
      SameGrants(lims, ttl, evs, key, i, j - 1);
      if IsRequest(evs, key, j - 1) { EvictionIsUnobservable(lims, ttl, evs, j - 1); }
    }
  }

  lemma {:induction false} LeadingNonRequest(lims: Limits, ttl: real, evs: seq<Event>, key: string, i: nat, j: nat)
    requires i < j <= |evs| && !IsRequest(evs, key, i)
    ensures Grants(lims, ttl, true, evs, key, i, j) == Grants(lims, ttl, true, evs, key, i + 1, j)
  {
    if i + 1 < j { LeadingNonRequest(lims, ttl, evs, key, i, j - 1); }
  }

  lemma LastGrantFits(lims: Limits, ttl: real, evs: seq<Event>, key: string, i: nat, j: nat, T: real)
    requires Monotone(evs) && i < j <= |evs| && lims(key).Active() && Uncleared(evs, key, i, j)
    requires 0.0 <= ttl && RefillsWithinTTL(lims(key), ttl)
    requires evs[j-1].now - evs[i].now <= T
    requires IsRequest(evs, key, i) && IsRequest(evs, key, j - 1) && Granted(lims, ttl, true, evs, j - 1)
    ensures Grants(lims, ttl, true, evs, key, i, j) as real <= lims(key).Full() + lims(key).Earned(T)
  {
    hide Limit.Earned;
    GrantedIffEveryWindowHasRoom(lims, ttl, evs, j - 1);
    assert Window(evs, key, i, j - 1);
    assert Grants(lims, ttl, true, evs, key, i, j - 1) as real + 1.0
        <= lims(key).Full() + lims(key).Earned(evs[j-1].now - evs[i].now);
    EarnedGrows(lims(key), evs[j-1].now - evs[i].now, T);
  }

  lemma WindowNonNegative(l: Limit, T: real)
    requires l.Active() && 0.0 <= T
    ensures 0.0 <= l.Full() + l.Earned(T)
  {
    EarnedGrows(l, 0.0, T);
  }

  /** Any stretch of the run that fits in a window of length T and does not clear the key grants it at most
      burst + T * rate, however the other keys are configured. */
  lemma {:induction false} WindowBound(lims: Limits, ttl: real, evs: seq<Event>, key: string, i: nat, j: nat, T: real)
    requires Monotone(evs) && i < j <= |evs| && lims(key).Active() && Uncleared(evs, key, i, j)
    requires 0.0 <= ttl && RefillsWithinTTL(lims(key), ttl)
    requires evs[j-1].now - evs[i].now <= T
    ensures Grants(lims, ttl, true, evs, key, i, j) as real <= lims(key).Full() + lims(key).Earned(T)
    decreases j - i
  {
    hide Limit.Earned, Granted;
    if !IsRequest(evs, key, i) {
      LeadingNonRequest(lims, ttl, evs, key, i, j);
      if i + 1 < j { WindowBound(lims, ttl, evs, key, i + 1, j, T); } else { WindowNonNegative(lims(key), T); }
    } else if IsRequest(evs, key, j - 1) && Granted(lims, ttl, true, evs, j - 1) {
      LastGrantFits(lims, ttl, evs, key, i, j, T);
    } else if i < j - 1 {
      WindowBound(lims, ttl, evs, key, i, j - 1, T);
    } else {
      WindowNonNegative(lims(key), T);
    }
  }

  // ----- The TTL condition is also necessary -----

  function Burst(key: string, n: nat, now: real): seq<Event> { seq(n, _ => Request(key, now)) }

  lemma TakeOne(m: Buckets, key: string, l: Limit, t: real, j: nat)
    requires l.Active() && 0 < j <= l.burst
    requires if j == 1 then key !in m else key in m && m[key] == Bucket(l.Full() - (j - 1) as real, t, t)
    ensures var m' := Allow(m, key, l, t).0;
      key in m' && m'[key] == Bucket(l.Full() - j as real, t, t)
  {
  }

  lemma {:induction false} DrainFull(lims: Limits, ttl: real, forgets: bool, pre: seq<Event>, key: string, t: real, j: nat)
    requires lims(key).Active() && j <= lims(key).burst && key !in After(lims, ttl, forgets, pre)
    ensures var m := After(lims, ttl, forgets, pre + Burst(key, j, t));
      if j == 0 then key !in m else key in m && m[key] == Bucket(lims(key).Full() - j as real, t, t)
  {
    if j == 0 {
      assert pre + Burst(key, 0, t) == pre;
    } else {
      DrainFull(lims, ttl, forgets, pre, key, t, j - 1);
      SplitLast(pre, key, j, t);
      TakeOne(After(lims, ttl, forgets, pre + Burst(key, j - 1, t)), key, lims(key), t, j);
      hide Burst, Allow;
    }
  }

  lemma SplitLast(pre: seq<Event>, key: string, j: nat, t: real)
    requires j > 0
    ensures var evs := pre + Burst(key, j, t);
      evs[..|evs|-1] == pre + Burst(key, j - 1, t) && evs[|evs|-1] == Request(key, t)
  {
  }

  lemma {:induction false} DrainPartial(lims: Limits, ttl: real, pre: seq<Event>, key: string, t: real, j: nat, x: real)
    requires lims(key).Active() && key in After(lims, ttl, false, pre)
    requires After(lims, ttl, false, pre)[key].lastRefill <= t
    requires Refill(After(lims, ttl, false, pre)[key], lims(key), t).tokens == x
    ensures var m := After(lims, ttl, false, pre + Burst(key, j, t));
      && key in m && m[key].lastRefill <= t
      && var tokens := Refill(m[key], lims(key), t).tokens;
         if j == 0 then tokens == x else tokens < 1.0 || tokens <= x - j as real
  {
    hide Limit.Earned;
    if j == 0 {
      assert pre + Burst(key, 0, t) == pre;
    } else {
      DrainPartial(lims, ttl, pre, key, t, j - 1, x);
      SplitLast(pre, key, j, t);
    }
  }

  /** Just after the TTL a bucket that refills too slowly is evicted while still short of full. */
  lemma EvictedTooEarly(l: Limit, ttl: real) returns (t: real)
    requires l.Active() && l.Earned(ttl) < l.Full()
    ensures t > ttl && l.Earned(t) < l.Full()
  {
    var gap := l.Full() - l.Earned(ttl);
    var eps := gap * 30.0 / l.perMinute as real;
    assert eps > 0.0;
    assert eps * l.perMinute as real == gap * 30.0;
    assert l.Earned(eps) == gap / 2.0;
    EarnedAdds(l, ttl, eps);
    t := ttl + eps;
  }

  ghost predicate SameVerdict(lims: Limits, ttl: real, evs: seq<Event>, i: nat)
    requires i < |evs| && evs[i].Request?
  {
    Granted(lims, ttl, true, evs, i) == Granted(lims, ttl, false, evs, i)
  }

  /** The bucket drained at the start, then a sweep at t. */
  function DrainAndSweep(key: string, n: nat, t: real): seq<Event> { Burst(key, n, 0.0) + [Sweep(t)] }

  lemma SweptOrEmpty(lims: Limits, ttl: real, key: string, t: real)
    requires lims(key).Active() && ttl < t
    ensures var run := DrainAndSweep(key, lims(key).burst, t);
      key !in After(lims, ttl, true, run) && key in After(lims, ttl, false, run)
      && After(lims, ttl, false, run)[key] == Bucket(0.0, 0.0, 0.0)
  {
    var n := lims(key).burst;
    DrainFull(lims, ttl, true, [], key, 0.0, n);
    DrainFull(lims, ttl, false, [], key, 0.0, n);
    hide Allow;
    assert [] + Burst(key, n, 0.0) == Burst(key, n, 0.0);
    var run := DrainAndSweep(key, n, t);
    assert run[..|run|-1] == Burst(key, n, 0.0) && run[|run|-1] == Sweep(t);
  }

  /** Drain the bucket, wait just past the TTL, ask burst times again: only the forgetful map grants them all. */
  lemma ObservableEviction(lims: Limits, ttl: real, key: string) returns (evs: seq<Event>, i: nat)
    requires 0.0 <= ttl && !RefillsWithinTTL(lims(key), ttl)
    ensures Monotone(evs) && i < |evs| && IsRequest(evs, key, i) && !SameVerdict(lims, ttl, evs, i)
  {
    var l := lims(key);
    var t := EvictedTooEarly(l, ttl);
    var idle := DrainAndSweep(key, l.burst, t);
    evs := idle + Burst(key, l.burst, t);
    i := |evs| - 1;
    assert evs[..i] == idle + Burst(key, l.burst - 1, t);
    SweptOrEmpty(lims, ttl, key, t);
    hide After, Limit.Earned;
    DrainFull(lims, ttl, true, idle, key, t, l.burst - 1);
    RefillOfEmpty(l, t);
    DrainPartial(lims, ttl, idle, key, t, l.burst - 1, l.Earned(t));
  }

  lemma RefillOfEmpty(l: Limit, t: real)
    requires l.Active() && 0.0 <= t && l.Earned(t) < l.Full()
    ensures Refill(Bucket(0.0, 0.0, 0.0), l, t).tokens == l.Earned(t)
  {
  }

  /** Eviction never changes a verdict for a key if and only if the key's own pair refills within the TTL. */
  lemma EvictionUnobservableIff(lims: Limits, ttl: real, key: string)
    requires 0.0 <= ttl
    ensures (forall evs: seq<Event>, i: nat :: Monotone(evs) && i < |evs| && IsRequest(evs, key, i) ==> SameVerdict(lims, ttl, evs, i))
       <==> RefillsWithinTTL(lims(key), ttl)
  {
    if RefillsWithinTTL(lims(key), ttl) {
      forall evs: seq<Event>, i: nat | Monotone(evs) && i < |evs| && IsRequest(evs, key, i) ensures SameVerdict(lims, ttl, evs, i) {
        EvictionIsUnobservable(lims, ttl, evs, i);
      }
    } else {
      var evs, i := ObservableEviction(lims, ttl, key);
    }
  }

  /** A non-positive rate or burst limits nothing, and leaves no bucket behind. */
  lemma InactiveNeverLimits(m: Buckets, key: string, perMinute: int, burst: int, now: real)
    requires perMinute <= 0 || burst <= 0
    ensures Allow(m, key, Limit(perMinute, burst), now) == (m, true)
  {
  }

  // ----- The shipped configuration -----

  /** defaultAbuseGuardConfig's rate/burst pairs, and the ten-fold hard cap on the proxy pair. */
  const DEFAULT_LIMITS: seq<Limit> := [
    Limit(600, 120), Limit(240, 80), Limit(240, 80), Limit(120, 40), Limit(60, 20),
    Limit(60, 20), Limit(12, 6), Limit(12, 6), Limit(60, 20), Limit(2400, 800)]

  const IDLE_ENTRY_TTL := 600.0

  /** Every default pair meets the condition under which the bounds above hold. */
  lemma DefaultsRefillWithinTTL(i: nat)
    requires i < |DEFAULT_LIMITS|
    ensures RefillsWithinTTL(DEFAULT_LIMITS[i], IDLE_ENTRY_TTL)
  {
  }

  // ----- Concurrent requests per device -----

  type Active = map<string, nat>

  function TryEnter(active: Active, d: string, max: int): (Active, bool) {
    if max <= 0 then (active, true)
    else
      var n := if d in active then active[d] else 0;
      if n >= max then (active, false) else (active[d := n + 1], true)
  }

  function LeaveDevice(active: Active, d: string, max: int): Active {
    if max <= 0 then active
    else if d !in active || active[d] <= 1 then active - {d}
    else active[d := active[d] - 1]
  }

  datatype Move = Enter(d: string) | Exit(d: string)

  function ActiveAfter(moves: seq<Move>, max: int): Active {
    if moves == [] then map[]
    else
      var before := ActiveAfter(moves[..|moves|-1], max);
      match moves[|moves|-1]
      case Enter(d) => TryEnter(before, d, max).0
      case Exit(d) => LeaveDevice(before, d, max)
  }

  /** Requests admitted for d and not yet left. */
  function InFlight(moves: seq<Move>, max: int, d: string): int {
    if moves == [] then 0
    else
      var e, before := moves[|moves|-1], moves[..|moves|-1];
      InFlight(before, max, d)
      + if e.d != d then 0
        else if e.Exit? then -1
        else if TryEnter(ActiveAfter(before, max), d, max).1 then 1 else 0
  }

  /** Only an admitted request leaves. */
  ghost predicate Balanced(moves: seq<Move>, max: int) {
    forall k :: 0 <= k < |moves| && moves[k].Exit? ==> InFlight(moves[..k], max, moves[k].d) > 0
  }

  /** The counter is exactly the number of requests in flight, never above the cap, and an idle device
      leaves no entry behind. */
  lemma {:induction false} CounterIsInFlight(moves: seq<Move>, max: int, d: string)
    requires max > 0 && Balanced(moves, max)
    ensures InFlight(moves, max, d) == (if d in ActiveAfter(moves, max) then ActiveAfter(moves, max)[d] else 0)
    ensures 0 <= InFlight(moves, max, d) <= max
    ensures d in ActiveAfter(moves, max) <==> InFlight(moves, max, d) > 0
  {
    if moves != [] {
      var before := moves[..|moves|-1];
      assert forall k :: 0 <= k < |before| ==> before[..k] == moves[..k];
      CounterIsInFlight(before, max, d);
    }
  }

  /** A request is let in exactly while fewer than the cap are in flight for its device; without a cap always. */
  lemma LetInIff(moves: seq<Move>, max: int, d: string)
    requires Balanced(moves, max)
    ensures TryEnter(ActiveAfter(moves, max), d, max).1 <==> max <= 0 || InFlight(moves, max, d) < max
  {
    if max > 0 { CounterIsInFlight(moves, max, d); }
  }

  // ----- The guard object -----

  class AbuseGuard {
    var buckets: Buckets
    var deviceActive: Active
    const idleEntryTTL: real
    const maxConcurrentPerDevice: int

    constructor (ttl: real, max: int)
      ensures buckets == map[] && deviceActive == map[] && idleEntryTTL == ttl && maxConcurrentPerDevice == max
    {
      buckets, deviceActive := map[], map[];
      idleEntryTTL, maxConcurrentPerDevice := ttl, max;
    }

    method TryEnterDevice(d: string) returns (ok: bool)
      modifies this`deviceActive
      ensures (deviceActive, ok) == TryEnter(old(deviceActive), d, maxConcurrentPerDevice)
    {
      if maxConcurrentPerDevice <= 0 { return true; }
      var n := if d in deviceActive then deviceActive[d] else 0;
      if n >= maxConcurrentPerDevice { return false; }
      deviceActive := deviceActive[d := n + 1];
      return true;
    }

    method Leave(d: string)
      modifies this`deviceActive
      ensures deviceActive == LeaveDevice(old(deviceActive), d, maxConcurrentPerDevice)
    {
      if maxConcurrentPerDevice <= 0 { return; }
      if d !in deviceActive || deviceActive[d] <= 1 {
        deviceActive := deviceActive - {d};
        return;
      }
      deviceActive := deviceActive[d := deviceActive[d] - 1];
    }

    method AllowRequest(key: string, perMinute: int, burst: int, now: real) returns (ok: bool)
      modifies this`buckets
      ensures (buckets, ok) == Allow(old(buckets), key, Limit(perMinute, burst), now)
      ensures perMinute <= 0 || burst <= 0 ==> ok && buckets == old(buckets)
    {
      if perMinute <= 0 || burst <= 0 {
        return true;
      }
      var ratePerSec := perMinute as real / 60.0;
      if key !in buckets {
        buckets := buckets[key := Bucket(burst as real, now, now)];
      }
      var b := buckets[key];
      var elapsed := now - b.lastRefill;
      if elapsed > 0.0 {
        b := b.(tokens := b.tokens + elapsed * ratePerSec);
        if b.tokens > burst as real {
          b := b.(tokens := burst as real);
        }
        b := b.(lastRefill := now);
      }
      b := b.(lastSeen := now);
      ok := b.tokens >= 1.0;
      if ok {
        b := b.(tokens := b.tokens - 1.0);
      }
      buckets := buckets[key := b];
      assert elapsed * ratePerSec == Limit(perMinute, burst).Earned(elapsed);
      assert buckets == old(buckets)[key := b];
    }

    method CleanupTick(now: real)
      modifies this`buckets
      ensures buckets == Evict(old(buckets), now, idleEntryTTL)
    {
      var cutoff := now - idleEntryTTL;
      var todo := buckets.Keys;
      while todo != {}
        invariant todo <= old(buckets).Keys
        invariant buckets == map k | k in old(buckets) && (k in todo || !(old(buckets)[k].lastSeen < cutoff)) :: old(buckets)[k]
        decreases |todo|
      {
        var k :| k in todo;
        todo := todo - {k};
        if buckets[k].lastSeen < cutoff {
          buckets := buckets - {k};
        }
      }
    }

    method ClearInvalidAuth(ip: string)
      modifies this`buckets
      ensures buckets == old(buckets) - {"invalid-auth:" + ip}
    {
      buckets := buckets - {"invalid-auth:" + ip};
    }
  }
}
