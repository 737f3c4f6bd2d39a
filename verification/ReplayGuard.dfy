/** relay/sigauth.go and relay/selftest.go: the two replay caches and the skew checks in front of them.
    Time is in nanoseconds; signature checks are an input of each request. */
module ReplayGuard {

  const SECOND: int := 1_000_000_000
  const MAX_SKEW: int := 60 * SECOND
  const SELFTEST_SKEW: int := 60 * SECOND
  const NONCE_TTL: int := 600 * SECOND
  const PRUNE_ABOVE: nat := 4096

  type Seen = map<string, int>

  // ----- sigNonceCache -----

  function Sweep(seen: Seen, now: int): Seen {
    map k | k in seen && !(now - seen[k] > 2 * MAX_SKEW) :: seen[k]
  }

  function Remember(seen: Seen, key: string, now: int): (Seen, bool) {
    var swept := Sweep(seen, now);
    if key in swept then (swept, false) else (swept[key := now], true)
  }

  /** A request whose signature verifies. verifyDeviceSig reads the clock twice: for the skew check, and
      again for the nonce cache. */
  datatype Signed = Signed(deviceID: string, tsMs: int, nonce: string, checkedAt: int, rememberedAt: int) {
    function Key(): string { deviceID + "\0" + nonce }

    predicate InSkew() {
      var d := checkedAt - tsMs * 1_000_000;
      !(d > MAX_SKEW || d < -MAX_SKEW)
    }
  }

  /** verifyDeviceSig from the skew check on. */
  function Verify(seen: Seen, r: Signed): (Seen, bool) {
    if !r.InSkew() then (seen, false) else Remember(seen, r.Key(), r.rememberedAt)
  }

  function Cache(rs: seq<Signed>): Seen {
    if rs == [] then map[] else Verify(Cache(rs[..|rs|-1]), rs[|rs|-1]).0
  }

  predicate Accepted(rs: seq<Signed>, i: nat)
    requires i < |rs|
  {
    Verify(Cache(rs[..i]), rs[i]).1
  }

  ghost predicate Timely(rs: seq<Signed>) {
    && (forall i :: 0 <= i < |rs| ==> rs[i].checkedAt <= rs[i].rememberedAt)
    && (forall i, j :: 0 <= i <= j < |rs| ==> rs[i].rememberedAt <= rs[j].rememberedAt)
  }

  ghost predicate AcceptedAs(rs: seq<Signed>, i: nat, key: string)
    requires i < |rs|
  {
    rs[i].Key() == key && Accepted(rs, i)
  }

  /** The cache holds a key since its last acceptance, and only an acceptance more than two skews old is gone. */
  ghost predicate Explains(rs: seq<Signed>, n: nat, key: string, w: nat)
    requires n <= |rs|
  {
    var seen := Cache(rs[..n]);
    if key in seen then
      && w < n && AcceptedAs(rs, w, key) && seen[key] == rs[w].rememberedAt
      && forall i :: w < i < n ==> !AcceptedAs(rs, i, key)
    else
      forall i :: 0 <= i < n && AcceptedAs(rs, i, key) ==> rs[n-1].rememberedAt - rs[i].rememberedAt > 2 * MAX_SKEW
  }

  lemma {:induction false} CacheExplained(rs: seq<Signed>, n: nat, key: string) returns (w: nat)
    requires Timely(rs) && n <= |rs|
    ensures Explains(rs, n, key, w)
  {
    w := 0;
    if n > 0 {
      assert rs[..n][..n-1] == rs[..n-1];
      w := CacheExplained(rs, n - 1, key);
      ExplainsNext(rs, n, key, w);
      if AcceptedAs(rs, n - 1, key) { w := n - 1; }
    }
  }

  lemma ExplainsNext(rs: seq<Signed>, n: nat, key: string, w: nat)
    requires Timely(rs) && 0 < n <= |rs| && Explains(rs, n - 1, key, w)
    ensures Explains(rs, n, key, if AcceptedAs(rs, n - 1, key) then n - 1 else w)
  {
    assert rs[..n][..n-1] == rs[..n-1];
    var before, after, r := Cache(rs[..n-1]), Cache(rs[..n]), rs[n-1];
    if !AcceptedAs(rs, n - 1, key) && key !in after {
      forall i | 0 <= i < n && AcceptedAs(rs, i, key) ensures r.rememberedAt - rs[i].rememberedAt > 2 * MAX_SKEW {
        if key in before { assert i <= w; } else { assert i < n - 1; }
      }
    }
  }

  /** The verdict by keys: within the skew, and no earlier acceptance of its key within the last two skews. */
  lemma AcceptedByKey(rs: seq<Signed>, n: nat)
    requires Timely(rs) && n < |rs|
    ensures Accepted(rs, n) <==>
      rs[n].InSkew() && forall i :: 0 <= i < n && rs[i].Key() == rs[n].Key() && Accepted(rs, i) ==>
        rs[n].rememberedAt - rs[i].rememberedAt > 2 * MAX_SKEW
  {
    var key := rs[n].Key();
    var w := CacheExplained(rs, n, key);
    assert forall i :: 0 <= i < n && rs[i].Key() == key && Accepted(rs, i) ==> AcceptedAs(rs, i, key);
    if key in Cache(rs[..n]) {
      forall i | 0 <= i < n && AcceptedAs(rs, i, key) ensures rs[i].rememberedAt <= rs[w].rememberedAt {
        assert i <= w;
      }
    }
  }

  lemma CutAtNul(d: string, n: string)
    requires '\0' !in d
    ensures var key := d + "\0" + n; |d| < |key| && key[|d|] == '\0' && key[..|d|] == d && key[|d|+1..] == n
    ensures forall k :: 0 <= k < |d| ==> (d + "\0" + n)[k] != '\0'
  {
  }

  /** A key tells device and nonce apart, as header values hold no NUL. */
  lemma KeyIsInjective(a: Signed, b: Signed)
    requires '\0' !in a.deviceID && '\0' !in b.deviceID
    ensures a.Key() == b.Key() <==> a.deviceID == b.deviceID && a.nonce == b.nonce
  {
    if a.Key() == b.Key() {
      CutAtNul(a.deviceID, a.nonce);
      CutAtNul(b.deviceID, b.nonce);
      assert |a.deviceID| == |b.deviceID|;
    }
  }

  ghost predicate NoNul(rs: seq<Signed>) { forall i :: 0 <= i < |rs| ==> '\0' !in rs[i].deviceID }

  /** Request i was an acceptance of the same device and nonce. */
  ghost predicate SeenAt(rs: seq<Signed>, i: nat, n: nat)
    requires i < |rs| && n < |rs|
  {
    rs[i].deviceID == rs[n].deviceID && rs[i].nonce == rs[n].nonce && Accepted(rs, i)
  }

  /** The verdict, exactly: a request is accepted iff its timestamp is within a minute of the clock and no earlier
      acceptance of its device and nonce lies within the last two minutes. Other devices' requests, and other
      nonces of its own, never change it. */
  lemma AcceptedIff(rs: seq<Signed>, n: nat)
    requires Timely(rs) && NoNul(rs) && n < |rs|
    ensures Accepted(rs, n) <==>
      && -60 * SECOND <= rs[n].checkedAt - rs[n].tsMs * 1_000_000 <= 60 * SECOND
      && forall i :: 0 <= i < n && SeenAt(rs, i, n) ==> rs[n].rememberedAt - rs[i].rememberedAt > 120 * SECOND
  {
    AcceptedByKey(rs, n);
    forall i | 0 <= i < n ensures rs[i].Key() == rs[n].Key() && Accepted(rs, i) <==> SeenAt(rs, i, n) {
      KeyIsInjective(rs[i], rs[n]);
    }
    hide Accepted;
  }

  /** After each call the cache holds nothing older than two skews. */
  lemma CacheIsShort(seen: Seen, key: string, now: int, k: string)
    requires (forall j :: j in seen ==> seen[j] <= now) && k in Remember(seen, key, now).0
    ensures 0 <= now - Remember(seen, key, now).0[k] <= 2 * MAX_SKEW
  {
  }

  predicate SameRequest(a: Signed, b: Signed) {
    a.deviceID == b.deviceID && a.tsMs == b.tsMs && a.nonce == b.nonce
  }

  /** The gap: checked before, remembered after the instant two skews past the first acceptance. */
  predicate Straddles(first: Signed, again: Signed) {
    again.checkedAt <= first.rememberedAt + 2 * MAX_SKEW < again.rememberedAt
  }

  /** A signed request can be accepted twice only by a verification that straddles the end of retention. */
  lemma DoubleAcceptanceStraddles(rs: seq<Signed>, i: nat, n: nat)
    requires Timely(rs) && i < n < |rs| && SameRequest(rs[i], rs[n])
    requires Accepted(rs, i) && Accepted(rs, n)
    ensures Straddles(rs[i], rs[n])
  {
    AcceptedByKey(rs, i);
    AcceptedByKey(rs, n);
    assert rs[i].Key() == rs[n].Key();
  }

  /** With one clock reading per request no signed request is accepted twice: two-sided skew and a
      retention of two skews, both inclusive, meet exactly. */
  lemma NoReplayWithOneReading(rs: seq<Signed>, i: nat, n: nat)
    requires Timely(rs) && i < n < |rs| && SameRequest(rs[i], rs[n])
    requires rs[n].checkedAt == rs[n].rememberedAt
    ensures !(Accepted(rs, i) && Accepted(rs, n))
  {
    if Accepted(rs, i) && Accepted(rs, n) { DoubleAcceptanceStraddles(rs, i, n); }
  }

  /** For a request first accepted at i, its nonce not since, the replay at n is accepted exactly when it passes
      the skew check and straddles. */
  lemma ReplayAcceptedIff(rs: seq<Signed>, i: nat, n: nat)
    requires Timely(rs) && NoNul(rs) && i < n < |rs| && SameRequest(rs[i], rs[n]) && Accepted(rs, i)
    requires forall j :: i < j < n ==> !SeenAt(rs, j, i)
    ensures Accepted(rs, n) <==>
      -60 * SECOND <= rs[n].checkedAt - rs[n].tsMs * 1_000_000 <= 60 * SECOND && Straddles(rs[i], rs[n])
  {
    AcceptedIff(rs, i);
    AcceptedIff(rs, n);
    assert SeenAt(rs, i, n);
    if Straddles(rs[i], rs[n]) {
      forall j | 0 <= j < n && SeenAt(rs, j, n) ensures rs[n].rememberedAt - rs[j].rememberedAt > 120 * SECOND {
        assert SeenAt(rs, j, i);
        assert j <= i;
      }
    }
  }

  /** It happens: a request dated a full skew ahead, replayed two skews later with one nanosecond between
      the two readings. */
  lemma TwoReadingsAdmitAReplay(d: string, nonce: string) returns (rs: seq<Signed>)
    ensures Timely(rs) && |rs| == 2 && SameRequest(rs[0], rs[1]) && Accepted(rs, 0) && Accepted(rs, 1)
    ensures rs[1].rememberedAt - rs[1].checkedAt == 1
  {
    rs := [Signed(d, 60_000, nonce, 0, 0), Signed(d, 60_000, nonce, 120 * SECOND, 120 * SECOND + 1)];
    AcceptedByKey(rs, 0);
    AcceptedByKey(rs, 1);
    assert Accepted(rs, 0);
  }

  // ----- The watchdog's nonceGuard -----

  function Prune(seen: Seen, now: int): Seen {
    if |seen| > PRUNE_ABOVE then map k | k in seen && !(now - seen[k] > NONCE_TTL) :: seen[k] else seen
  }

  function CheckAndRecord(seen: Seen, nonce: string, now: int): (Seen, bool) {
    var pruned := Prune(seen, now);
    if nonce in pruned && now - pruned[nonce] < NONCE_TTL then (pruned, false) else (pruned[nonce := now], true)
  }

  /** A watchdog request whose signature verifies; one clock reading serves both checks. */
  datatype Selftest = Selftest(nonce: string, issuedAtMs: int, now: int)

  /** time.Time.UnixMilli floors. */
  function UnixMilli(now: int): int { now / 1_000_000 }

  const TWO_63: int := 0x8000_0000_0000_0000

  /** int64 arithmetic wraps around. */
  function Wrap64(x: int): int { (x + TWO_63) % (2 * TWO_63) - TWO_63 }

  /** The skew is computed in int64 nanoseconds; the negation of the least int64 is itself. */
  predicate Fresh(r: Selftest) {
    var skew := Wrap64(Wrap64(UnixMilli(r.now) - r.issuedAtMs) * 1_000_000);
    Wrap64(if skew < 0 then -skew else skew) <= SELFTEST_SKEW
  }

  /** Where nothing overflows, fresh means issued within a minute of the clock, on either side. */
  lemma FreshIff(r: Selftest)
    requires -TWO_63 < (UnixMilli(r.now) - r.issuedAtMs) * 1_000_000 < TWO_63
    ensures Fresh(r) <==> -60_000 <= UnixMilli(r.now) - r.issuedAtMs <= 60_000
  {
    var ms := UnixMilli(r.now) - r.issuedAtMs;
    WrapInside(ms);
    WrapInside(ms * 1_000_000);
    WrapInside(if ms < 0 then -(ms * 1_000_000) else ms * 1_000_000);
    hide Wrap64;
  }

  lemma WrapInside(x: int)
    requires -TWO_63 <= x < TWO_63
    ensures Wrap64(x) == x
  {
  }

  function Admit(seen: Seen, r: Selftest, prunes: bool): (Seen, bool) {
    if !Fresh(r) then (seen, false)
    else if prunes then CheckAndRecord(seen, r.nonce, r.now)
    else if r.nonce in seen && r.now - seen[r.nonce] < NONCE_TTL then (seen, false)
    else (seen[r.nonce := r.now], true)
  }

  function Guard(rs: seq<Selftest>, prunes: bool): Seen {
    if rs == [] then map[] else Admit(Guard(rs[..|rs|-1], prunes), rs[|rs|-1], prunes).0
  }

  predicate Admitted(rs: seq<Selftest>, i: nat, prunes: bool)
    requires i < |rs|
  {
    Admit(Guard(rs[..i], prunes), rs[i], prunes).1
  }

  ghost predicate Ordered(rs: seq<Selftest>) {
    forall i, j :: 0 <= i <= j < |rs| ==> rs[i].now <= rs[j].now
  }

  /** Above 4096 entries a call leaves none older than the TTL; at or below, it drops none. */
  lemma PruneBound(seen: Seen, nonce: string, now: int, k: string)
    ensures |seen| > 4096 && k in CheckAndRecord(seen, nonce, now).0 ==> now - CheckAndRecord(seen, nonce, now).0[k] <= 600 * SECOND
    ensures |seen| <= 4096 && k in seen ==> k in CheckAndRecord(seen, nonce, now).0
  {
  }

  /** `p` has lost to pruning only entries that no longer block anything. */
  ghost predicate Agrees(p: Seen, u: Seen, now: int) {
    && p.Keys <= u.Keys
    && (forall k :: k in p ==> p[k] == u[k])
    && (forall k :: k in u && k !in p ==> now - u[k] > NONCE_TTL)
  }

  lemma {:induction false} PruningAgrees(rs: seq<Selftest>, now: int)
    requires Ordered(rs) && (rs != [] ==> rs[|rs|-1].now <= now)
    ensures Agrees(Guard(rs, true), Guard(rs, false), now)
  {
    if rs != [] {
      var r := rs[|rs|-1];
      PruningAgrees(rs[..|rs|-1], r.now);
      var p, u := Guard(rs[..|rs|-1], true), Guard(rs[..|rs|-1], false);
      if Fresh(r) { assert Prune(p, r.now).Keys <= u.Keys; }
    }
  }

  /** Pruning never changes a verdict. */
  lemma PruningIsUnobservable(rs: seq<Selftest>, i: nat)
    requires Ordered(rs) && i < |rs|
    ensures Admitted(rs, i, true) == Admitted(rs, i, false)
  {
    PruningAgrees(rs[..i], rs[i].now);
  }

  lemma {:induction false} AdmittedIsKept(rs: seq<Selftest>, i: nat, n: nat)
    requires Ordered(rs) && i < n <= |rs| && Admitted(rs, i, false)
    ensures rs[i].nonce in Guard(rs[..n], false) && Guard(rs[..n], false)[rs[i].nonce] >= rs[i].now
  {
    assert rs[..n][..n-1] == rs[..n-1];
    if i < n - 1 { AdmittedIsKept(rs, i, n - 1); }
  }

  ghost predicate AdmittedAs(rs: seq<Selftest>, i: nat, nonce: string)
    requires i < |rs|
  {
    rs[i].nonce == nonce && Admitted(rs, i, false)
  }

  /** The unpruned guard holds exactly the admitted nonces, each with its last admission. */
  lemma {:induction false} GuardHoldsLastAdmission(rs: seq<Selftest>, n: nat, nonce: string) returns (w: nat)
    requires n <= |rs|
    ensures var seen := Guard(rs[..n], false);
      if nonce in seen then
        && w < n && AdmittedAs(rs, w, nonce) && seen[nonce] == rs[w].now
        && forall i :: w < i < n ==> !AdmittedAs(rs, i, nonce)
      else forall i :: 0 <= i < n ==> !AdmittedAs(rs, i, nonce)
  {
    w := 0;
    if n > 0 {
      hide Fresh, CheckAndRecord;
      assert rs[..n][..n-1] == rs[..n-1];
      assert Guard(rs[..n], false) == Admit(Guard(rs[..n-1], false), rs[n-1], false).0;
      hide Guard;
      w := GuardHoldsLastAdmission(rs, n - 1, nonce);
      if AdmittedAs(rs, n - 1, nonce) { w := n - 1; }
    }
  }

  /** The guard's verdict, exactly: fresh, and no admission of its nonce less than a TTL ago. */
  lemma AdmittedIff(rs: seq<Selftest>, n: nat)
    requires Ordered(rs) && n < |rs|
    ensures Admitted(rs, n, true) <==>
      Fresh(rs[n]) && forall i :: 0 <= i < n && rs[i].nonce == rs[n].nonce && Admitted(rs, i, true) ==> rs[n].now - rs[i].now >= 600 * SECOND
  {
    hide Fresh;
    var nonce := rs[n].nonce;
    var w := GuardHoldsLastAdmission(rs, n, nonce);
    forall i | 0 <= i <= n ensures Admitted(rs, i, true) == Admitted(rs, i, false) { PruningIsUnobservable(rs, i); }
    assert forall i :: 0 <= i < n && rs[i].nonce == nonce && Admitted(rs, i, false) ==> AdmittedAs(rs, i, nonce);
    if nonce in Guard(rs[..n], false) {
      assert forall i :: 0 <= i < n && AdmittedAs(rs, i, nonce) ==> i <= w;
      assert AdmittedAs(rs, w, nonce);
    }
  }

  lemma WrapResidue(x: int) returns (q: int)
    ensures Wrap64(x) == x - q * (2 * TWO_63) && -TWO_63 <= Wrap64(x) < TWO_63
  {
    q := (x + TWO_63) / (2 * TWO_63);
  }

  /** Two fresh readings of one issue time are at most two skews apart (plus the millisecond floor). */
  lemma FreshWindow(a: Selftest, b: Selftest)
    requires Fresh(a) && Fresh(b) && a.issuedAtMs == b.issuedAtMs && 0 <= a.now <= b.now < TWO_63 / 2
    ensures b.now - a.now <= 2 * SELFTEST_SKEW + 1_000_000
  {
    var x, y := UnixMilli(a.now) - a.issuedAtMs, UnixMilli(b.now) - b.issuedAtMs;
    var q1 := WrapResidue(x);
    var q2 := WrapResidue(y);
    var r1 := WrapResidue(Wrap64(x) * 1_000_000);
    var r2 := WrapResidue(Wrap64(y) * 1_000_000);
    var s, t := Wrap64(Wrap64(x) * 1_000_000), Wrap64(Wrap64(y) * 1_000_000);
    FreshSkew(a, s);
    FreshSkew(b, t);
    hide Wrap64;
    NoWrapBetween((y - x) * 1_000_000, s, t, (q2 - q1) * 1_000_000 + r2 - r1);
  }

  lemma NoWrapBetween(d: int, s: int, t: int, k: int)
    requires 0 <= d < TWO_63 / 2 + 1_000_000 && d == t - s + k * (2 * TWO_63)
    requires -SELFTEST_SKEW <= s <= SELFTEST_SKEW || s == -TWO_63
    requires -SELFTEST_SKEW <= t <= SELFTEST_SKEW || t == -TWO_63
    ensures d <= 2 * SELFTEST_SKEW
  {
  }

  lemma FreshSkew(r: Selftest, skew: int)
    requires Fresh(r) && skew == Wrap64(Wrap64(UnixMilli(r.now) - r.issuedAtMs) * 1_000_000)
    ensures -SELFTEST_SKEW <= skew <= SELFTEST_SKEW || skew == -TWO_63
  {
    var q := WrapResidue(Wrap64(UnixMilli(r.now) - r.issuedAtMs) * 1_000_000);
    var q' := WrapResidue(if skew < 0 then -skew else skew);
  }

  /** No watchdog request (nonce, issue time) is admitted twice: the skew window is far inside the TTL.
      Readings are below 2^62 ns, so that the wrap-around of the skew cannot join distant instants. */
  lemma NoSelftestReplay(rs: seq<Selftest>, i: nat, n: nat)
    requires Ordered(rs) && i < n < |rs| && rs[i].nonce == rs[n].nonce && rs[i].issuedAtMs == rs[n].issuedAtMs
    requires 0 <= rs[i].now && rs[n].now < TWO_63 / 2
    ensures !(Admitted(rs, i, true) && Admitted(rs, n, true))
  {
    PruningIsUnobservable(rs, i);
    PruningIsUnobservable(rs, n);
    if Admitted(rs, i, false) && Admitted(rs, n, false) {
      AdmittedIsKept(rs, i, n);
      FreshWindow(rs[i], rs[n]);
    }
  }

  // ----- The objects -----

  class SigNonceCache {
    var seen: Seen

    constructor ()
      ensures seen == map[]
    {
      seen := map[];
    }

    method RememberKey(key: string, now: int) returns (unseen: bool)
      modifies this
      ensures (seen, unseen) == Remember(old(seen), key, now)
    {
      var todo := seen.Keys;
      while todo != {}
        invariant todo <= old(seen).Keys
        invariant seen == map k | k in old(seen) && (k in todo || !(now - old(seen)[k] > 2 * MAX_SKEW)) :: old(seen)[k]
        decreases |todo|
      {
        var k :| k in todo;
        todo := todo - {k};
        if now - seen[k] > 2 * MAX_SKEW { seen := seen - {k}; }
      }
      assert seen == Sweep(old(seen), now);
      if key in seen { return false; }
      seen := seen[key := now];
      return true;
    }
  }

  class NonceGuard {
    var seen: Seen

    constructor ()
      ensures seen == map[]
    {
      seen := map[];
    }

    method CheckAndRecordNonce(nonce: string, now: int) returns (unseen: bool)
      modifies this
      ensures (seen, unseen) == CheckAndRecord(old(seen), nonce, now)
    {
      if |seen| > PRUNE_ABOVE {
        var todo := seen.Keys;
        while todo != {}
          invariant todo <= old(seen).Keys
          invariant seen == map k | k in old(seen) && (k in todo || !(now - old(seen)[k] > NONCE_TTL)) :: old(seen)[k]
          decreases |todo|
        {
          var k :| k in todo;
          todo := todo - {k};
          if now - seen[k] > NONCE_TTL { seen := seen - {k}; }
        }
      }
      assert seen == Prune(old(seen), now);
      if nonce in seen && now - seen[nonce] < NONCE_TTL { return false; }
      seen := seen[nonce := now];
      return true;
    }
  }
}
