/** relay/server.go: the subdomain table. A QUIC registration auto-provisions its own subdomain, control
    streams register and unregister others, and a disconnect clears the device. */
module ExposeRoutes {
  import opened Text

  datatype Route = Route(deviceID: string, port: int)

  type Routes = map<string, Route>

  const MAX_SUBDOMAINS_PER_DEVICE := 32

  const RESERVED: set<string> := {"www", "api", "relay", "public", "admin", "mail", "app"}

  /** `conns` remembers which device each registered connection serves; `gone` are those cleaned up. */
  datatype State = State(routes: Routes, conns: map<nat, string>, gone: set<nat>) {
    predicate Connected(c: nat, d: string) { c in conns && c !in gone && conns[c] == d }
  }

  const INITIAL := State(map[], map[], {})

  datatype Verdict = Registered | BadFormat | Reserved | BadPort | Taken | LimitReached

  predicate SubdomainChar(c: char) { 'a' <= c <= 'z' || '0' <= c <= '9' || c == '-' }

  predicate WellFormed(sub: string) {
    && 3 <= |sub| <= 32
    && (forall c :: c in sub ==> SubdomainChar(c))
    && sub[0] != '-' && sub[|sub|-1] != '-'
  }

  function Own(routes: Routes, d: string): set<string> {
    set sub | sub in routes && routes[sub].deviceID == d
  }

  /** Re-registering a subdomain one already holds never consumes a slot. */
  predicate LimitHit(routes: Routes, d: string, sub: string) {
    !(sub in routes && routes[sub].deviceID == d) && |Own(routes, d)| >= MAX_SUBDOMAINS_PER_DEVICE
  }

  function Judge(routes: Routes, raw: string, port: int, d: string): Verdict {
    var sub := ToLower(raw);
    if !WellFormed(sub) then BadFormat
    else if sub in RESERVED then Reserved
    else if port <= 0 || port > 65535 then BadPort
    else if sub in routes && routes[sub].deviceID != d then Taken
    else if LimitHit(routes, d, sub) then LimitReached
    else Registered
  }

  /** A registration is accepted if and only if the lower-cased name has 3 to 32 letters, digits and inner hyphens,
      is not reserved, the port is a real one, and the name is the device's own already or free with fewer than 32
      names held. */
  lemma AcceptedIff(routes: Routes, raw: string, port: int, d: string)
    ensures var sub := ToLower(raw);
      Judge(routes, raw, port, d) == Registered <==>
        && 3 <= |sub| <= 32 && sub[0] != '-' && sub[|sub|-1] != '-'
        && (forall i :: 0 <= i < |sub| ==> 'a' <= sub[i] <= 'z' || '0' <= sub[i] <= '9' || sub[i] == '-')
        && sub != "www" && sub != "api" && sub != "relay" && sub != "public" && sub != "admin" && sub != "mail" && sub != "app"
        && 1 <= port <= 65535
        && (if sub in routes then routes[sub].deviceID == d else |Own(routes, d)| < 32)
  {
    hide ToLower;
    var sub := ToLower(raw);
    assert (forall c :: c in sub ==> SubdomainChar(c)) <==> (forall i :: 0 <= i < |sub| ==> SubdomainChar(sub[i]));
  }

  function OwnAmong(routes: Routes, keys: set<string>, d: string): set<string>
    requires keys <= routes.Keys
  {
    set sub | sub in keys && routes[sub].deviceID == d
  }

  lemma OneMore(routes: Routes, keys: set<string>, k: string, d: string)
    requires keys <= routes.Keys && k in routes && k !in keys
    ensures |OwnAmong(routes, keys + {k}, d)| == |OwnAmong(routes, keys, d)| + if routes[k].deviceID == d then 1 else 0
  {
    assert OwnAmong(routes, keys + {k}, d) == OwnAmong(routes, keys, d) + if routes[k].deviceID == d then {k} else {};
  }

  /** A connection is provisioned once, when it registers, and cleaned up once, when it is done. */
  datatype Step =
    | AutoProvision(c: nat, d: string)
    | Register(raw: string, port: int, d: string)
    | Unregister(raw: string, d: string)
    | Disconnect(c: nat)

  predicate Enabled(s: State, e: Step) {
    match e
    case AutoProvision(c, _) => c !in s.conns
    case Disconnect(c) => c in s.conns && c !in s.gone
    case _ => true
  }

  function WithoutDevice(routes: Routes, d: string): Routes {
    map sub | sub in routes && routes[sub].deviceID != d :: routes[sub]
  }

  /** A device id that would claim a reserved name is turned away before it registers. */
  function Next(s: State, e: Step): State
    requires Enabled(s, e)
  {
    match e
    case AutoProvision(c, d) =>
      if ToLower(d) in RESERVED then s
      else s.(routes := s.routes[ToLower(d) := Route(d, 18080)], conns := s.conns[c := d])
    case Register(raw, port, d) =>
      if Judge(s.routes, raw, port, d) == Registered then s.(routes := s.routes[ToLower(raw) := Route(d, port)]) else s
    case Unregister(raw, d) => if Holds(s, ToLower(raw), d) then s.(routes := s.routes - {ToLower(raw)}) else s
    case Disconnect(c) => s.(routes := WithoutDevice(s.routes, s.conns[c]), gone := s.gone + {c})
  }

  predicate Holds(s: State, sub: string, d: string) { sub in s.routes && s.routes[sub].deviceID == d }

  ghost predicate Run(states: seq<State>, steps: seq<Step>) {
    && |states| == |steps| + 1
    && states[0] == INITIAL
    && forall k :: 0 <= k < |steps| ==> Enabled(states[k], steps[k]) && states[k+1] == Next(states[k], steps[k])
  }

  // ----- Quota -----

  ghost predicate WithinQuota(routes: Routes, d: string) {
    |Own(routes, d) - {ToLower(d)}| <= MAX_SUBDOMAINS_PER_DEVICE
  }

  lemma SubsetSize(a: set<string>, b: set<string>)
    requires a <= b
    ensures |a| <= |b|
  {
    assert b == a + (b - a);
  }

  /** Only a successful registration by d, within the limit, can add to what d owns besides its auto subdomain. */
  lemma OwnGrowth(s: State, e: Step, d: string)
    requires Enabled(s, e)
    ensures var before, after := Own(s.routes, d), Own(Next(s, e).routes, d);
      || after <= before + {ToLower(d)}
      || (|before| < MAX_SUBDOMAINS_PER_DEVICE && e.Register? && after <= before + {ToLower(e.raw)})
  {
    hide ToLower, WellFormed;
  }

  lemma SizeAfterAdding(a: set<string>, b: set<string>, x: string)
    requires a <= b + {x}
    ensures |a| <= |b| + 1
  {
    SubsetSize(a, b + {x});
  }

  lemma StepKeepsQuota(s: State, e: Step, d: string)
    requires WithinQuota(s.routes, d) && Enabled(s, e)
    ensures WithinQuota(Next(s, e).routes, d)
  {
    hide ToLower, Next;
    var before, after, auto := Own(s.routes, d), Own(Next(s, e).routes, d), {ToLower(d)};
    OwnGrowth(s, e, d);
    if after <= before + auto {
      SubsetSize(after - auto, before - auto);
    } else {
      SizeAfterAdding(after, before, ToLower(e.raw));
      SubsetSize(after - auto, after);
    }
  }

  /** Over every run a device owns at most 32 routes besides its own auto subdomain, and 33 in all. */
  lemma {:induction false} QuotaHolds(states: seq<State>, steps: seq<Step>, k: nat, d: string)
    requires Run(states, steps) && k < |states|
    ensures |Own(states[k].routes, d) - {ToLower(d)}| <= 32 && |Own(states[k].routes, d)| <= 33
  {
    hide ToLower, Next, Enabled;
    if k == 0 {
      assert Own(states[k].routes, d) == {};
    } else {
      QuotaHolds(states, steps, k - 1, d);
      StepKeepsQuota(states[k-1], steps[k-1], d);
      var own, auto := Own(states[k].routes, d), {ToLower(d)};
      SubsetSize(own, (own - auto) + auto);
    }
  }

  /** No run ever routes a reserved name. */
  lemma {:induction false} ReservedNeverRouted(states: seq<State>, steps: seq<Step>, k: nat, sub: string)
    requires Run(states, steps) && k < |states| && sub in RESERVED
    ensures sub !in states[k].routes
  {
    hide ToLower, WellFormed;
    if k > 0 { ReservedNeverRouted(states, steps, k - 1, sub); }
  }

  // ----- Who holds a subdomain -----

  /** The step gives the subdomain to the device: it is provisioned automatically, or registered and accepted. */
  predicate Gives(s: State, e: Step, sub: string, d: string) {
    || (e.AutoProvision? && e.d == d && ToLower(d) == sub && sub !in RESERVED)
    || (e.Register? && e.d == d && ToLower(e.raw) == sub && Judge(s.routes, e.raw, e.port, d) == Registered)
  }

  /** The step takes the subdomain from the device: some connection of the device is cleaned up, the device
      unregisters the name, or a device whose lower-cased id it is gets provisioned. */
  predicate Takes(s: State, e: Step, sub: string, d: string) {
    || (e.Disconnect? && e.c in s.conns && s.conns[e.c] == d)
    || (e.Unregister? && e.d == d && ToLower(e.raw) == sub)
    || (e.AutoProvision? && e.d != d && ToLower(e.d) == sub && sub !in RESERVED)
  }

  /** One step: in particular no register step takes a route held by another device. */
  lemma HoldsAfter(s: State, e: Step, sub: string, d: string)
    requires Enabled(s, e)
    ensures Holds(Next(s, e), sub, d) <==> Gives(s, e, sub, d) || (Holds(s, sub, d) && !Takes(s, e, sub, d))
    ensures Gives(s, e, sub, d) ==> Next(s, e).routes[sub] == Route(d, if e.AutoProvision? then 18_080 else e.port)
    ensures Holds(Next(s, e), sub, d) && !Gives(s, e, sub, d) ==> Next(s, e).routes[sub] == s.routes[sub]
  {
    hide ToLower, WellFormed;
  }

  ghost predicate Untaken(states: seq<State>, steps: seq<Step>, g: nat, k: nat, sub: string, d: string)
    requires k <= |steps| < |states|
  {
    forall m :: g < m < k ==> !Takes(states[m], steps[m], sub, d)
  }

  /** Over every run a device holds a subdomain if and only if some step gave it the name and none since
      took it away. */
  lemma {:induction false} HeldIff(states: seq<State>, steps: seq<Step>, k: nat, sub: string, d: string)
    requires Run(states, steps) && k < |states|
    ensures Holds(states[k], sub, d) <==>
      exists g :: 0 <= g < k && Gives(states[g], steps[g], sub, d) && Untaken(states, steps, g, k, sub, d)
  {
    hide Gives, Takes, Next, Enabled;
    if k > 0 {
      HeldIff(states, steps, k - 1, sub, d);
      HoldsAfter(states[k-1], steps[k-1], sub, d);
      if Gives(states[k-1], steps[k-1], sub, d) {
        assert Untaken(states, steps, k - 1, k, sub, d);
      } else {
        forall g | 0 <= g < k - 1
          ensures Untaken(states, steps, g, k, sub, d) <==>
            Untaken(states, steps, g, k - 1, sub, d) && !Takes(states[k-1], steps[k-1], sub, d)
        {
        }
      }
    }
  }

  /** What can cost connection c of device d its automatic subdomain. */
  predicate Costs(s: State, e: Step, c: nat, d: string) {
    || (e.Disconnect? && e.c != c && e.c in s.conns && s.conns[e.c] == d)
    || (e.Unregister? && e.d == d && ToLower(e.raw) == ToLower(d))
    || (e.AutoProvision? && e.d != d && ToLower(e.d) == ToLower(d))
  }

  /** The clean-up of a connection carries no identity but the device's. While c is connected its device
      holds the automatic subdomain if and only if, since c was provisioned or the name was given to the
      device again, no other connection of the device was cleaned up, the device did not unregister the
      name, and no device with a case variant of its id was provisioned. */
  lemma AutoRouteKeptIff(states: seq<State>, steps: seq<Step>, p: nat, k: nat, c: nat, d: string)
    requires Run(states, steps) && p < k < |states| && steps[p] == AutoProvision(c, d)
    requires states[k].Connected(c, d)
    ensures Holds(states[k], ToLower(d), d) <==>
      exists g :: p <= g < k && Gives(states[g], steps[g], ToLower(d), d) && forall m :: g < m < k ==> !Costs(states[m], steps[m], c, d)
  {
    var sub := ToLower(d);
    HeldIff(states, steps, k, sub, d);
    if sub in RESERVED { ReservedNeverConnects(states, steps, k, c, d); }
    forall m | p < m < k ensures Takes(states[m], steps[m], sub, d) <==> Costs(states[m], steps[m], c, d) {
      if steps[m] == Disconnect(c) { StaysGone(states, steps, m + 1, k, c); }
    }
    hide Takes, Costs, ToLower, Next, Enabled;
    if Holds(states[k], sub, d) {
      var g :| 0 <= g < k && Gives(states[g], steps[g], sub, d) && Untaken(states, steps, g, k, sub, d);
      var g' := if g < p then p else g;
      assert Gives(states[g'], steps[g'], sub, d) && forall m :: g' < m < k ==> !Costs(states[m], steps[m], c, d);
    }
    if g :| p <= g < k && Gives(states[g], steps[g], sub, d) && forall m :: g < m < k ==> !Costs(states[m], steps[m], c, d) {
      assert Untaken(states, steps, g, k, sub, d);
    }
  }

  lemma {:induction false} StaysGone(states: seq<State>, steps: seq<Step>, i: nat, j: nat, c: nat)
    requires Run(states, steps) && i <= j < |states| && c in states[i].gone
    ensures c in states[j].gone
    decreases j
  {
    if i < j { StaysGone(states, steps, i, j - 1, c); }
  }

  lemma {:induction false} ReservedNeverConnects(states: seq<State>, steps: seq<Step>, k: nat, c: nat, d: string)
    requires Run(states, steps) && k < |states| && ToLower(d) in RESERVED
    ensures !states[k].Connected(c, d)
  {
    if k > 0 { ReservedNeverConnects(states, steps, k - 1, c, d); }
  }

  /** Two connections of one device are up, as after a reconnect: the late clean-up of the first leaves the
      device connected through the second, but without any route. */
  lemma LateCleanupDropsSuccessor(s: State, old_: nat, new_: nat, d: string)
    requires old_ != new_ && s.Connected(old_, d) && s.Connected(new_, d)
    ensures var s' := Next(s, Disconnect(old_)); s'.Connected(new_, d) && Own(s'.routes, d) == {}
  {
  }

  /** It happens: a reconnect is provisioned before the superseded connection is cleaned up. */
  lemma ReconnectLosesItsRoute(d: string) returns (states: seq<State>, steps: seq<Step>)
    requires ToLower(d) !in RESERVED
    ensures Run(states, steps) && steps == [AutoProvision(0, d), AutoProvision(1, d), Disconnect(0)]
    ensures Holds(states[2], ToLower(d), d) && states[3].Connected(1, d) && !Holds(states[3], ToLower(d), d)
  {
    hide ToLower;
    steps := [AutoProvision(0, d), AutoProvision(1, d), Disconnect(0)];
    var s1 := Next(INITIAL, steps[0]);
    var s2 := Next(s1, steps[1]);
    states := [INITIAL, s1, s2, Next(s2, steps[2])];
  }

  /** Two device ids that differ only in case share one auto subdomain: the later one takes it. */
  lemma CaseVariantTakesSubdomain(s: State, c: nat, d: string, d': string)
    requires d != d' && ToLower(d) == ToLower(d') && Holds(s, ToLower(d), d) && ToLower(d) !in RESERVED && Enabled(s, AutoProvision(c, d'))
    ensures Holds(Next(s, AutoProvision(c, d')), ToLower(d'), d') && !Holds(Next(s, AutoProvision(c, d')), ToLower(d), d)
  {
  }

  // ----- The server's table -----

  class ExposeTable {
    var routes: Routes
    var conns: map<nat, string>
    var gone: set<nat>

    ghost function View(): State
      reads this
    {
      State(routes, conns, gone)
    }

    constructor ()
      ensures View() == INITIAL
    {
      routes, conns, gone := map[], map[], {};
    }

    /** The reserved-name check and the provisioning block of a QUIC registration. */
    method AutoProvisionRoute(c: nat, d: string) returns (ok: bool)
      requires Enabled(View(), AutoProvision(c, d))
      modifies this
      ensures View() == Next(old(View()), AutoProvision(c, d))
      ensures ok <==> ToLower(d) !in RESERVED
      ensures routes == if ok then old(routes)[ToLower(d) := Route(d, 18_080)] else old(routes)
    {
      var autoSub := ToLower(d);
      if autoSub in RESERVED { return false; }
      conns := conns[c := d];
      routes := routes[autoSub := Route(d, 18080)];
      return true;
    }

    method RouteLimitReached(d: string, sub: string) returns (reached: bool)
      ensures reached == LimitHit(routes, d, sub)
    {
      if sub in routes && routes[sub].deviceID == d { return false; }
      var count, todo := 0, routes.Keys;
      ghost var seen := {};
      while todo != {}
        invariant todo !! seen && todo + seen == routes.Keys
        invariant count == |OwnAmong(routes, seen, d)|
        decreases |todo|
      {
        var k :| k in todo;
        OneMore(routes, seen, k, d);
        todo, seen := todo - {k}, seen + {k};
        if routes[k].deviceID == d { count := count + 1; }
      }
      assert OwnAmong(routes, seen, d) == Own(routes, d);
      return count >= MAX_SUBDOMAINS_PER_DEVICE;
    }

    method HandleExposeRegister(raw: string, port: int, d: string) returns (v: Verdict)
      modifies this`routes
      ensures v == Judge(old(routes), raw, port, d)
      ensures View() == Next(old(View()), Register(raw, port, d))
      ensures routes == if v.Registered? then old(routes)[ToLower(raw) := Route(d, port)] else old(routes)
    {
      var sub := ToLower(raw);
      if |sub| < 3 || |sub| > 32 { return BadFormat; }
      for i := 0 to |sub|
        invariant forall k :: 0 <= k < i ==> SubdomainChar(sub[k])
      {
        if !SubdomainChar(sub[i]) { return BadFormat; }
      }
      if sub[0] == '-' || sub[|sub|-1] == '-' { return BadFormat; }
      if sub in RESERVED { return Reserved; }
      if port <= 0 || port > 65535 { return BadPort; }
      if sub in routes && routes[sub].deviceID != d { return Taken; }
      var full := RouteLimitReached(d, sub);
      if full { return LimitReached; }
      routes := routes[sub := Route(d, port)];
      return Registered;
    }

    method HandleExposeUnregister(raw: string, d: string)
      modifies this`routes
      ensures View() == Next(old(View()), Unregister(raw, d))
    {
      var sub := ToLower(raw);
      if sub in routes && routes[sub].deviceID == d {
        routes := routes - {sub};
      }
    }

    /** What a registration handler does to the routes once its connection is done. */
    method DropConnection(c: nat)
      requires Enabled(View(), Disconnect(c))
      modifies this
      ensures View() == Next(old(View()), Disconnect(c))
    {
      var d, todo := conns[c], routes.Keys;
      while todo != {}
        invariant todo <= old(routes).Keys && conns == old(conns) && gone == old(gone)
        invariant routes == map k | k in old(routes) && (k in todo || old(routes)[k].deviceID != d) :: old(routes)[k]
        decreases |todo|
      {
        var k :| k in todo;
        todo := todo - {k};
        if routes[k].deviceID == d { routes := routes - {k}; }
      }
      gone := gone + {c};
    }
  }
}
