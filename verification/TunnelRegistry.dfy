/** relay/server.go and relay/tunnel_liveness.go: the map of agent tunnels.
    QUIC and websocket registrations, late clean-ups, liveness evictions and failed stream opens
    race on it; every block held under the registry mutex is one step. Transports are ids. */
module TunnelRegistry {
  import opened Wrappers

  /** Immutable after registration; the handlers that hold it compare its transport, not its key. */
  datatype Tunnel = Tunnel(deviceID: string, conn: Option<nat>, ws: Option<nat>, userID: string) {
    predicate OneTransport() { conn.Some? != ws.Some? }

    function Transport(): Option<nat> { if conn.Some? then conn else ws }
  }

  /** Where the goroutine serving a registered transport stands. */
  datatype Phase = Registered | Serving | Finished

  datatype Handler = Handler(tunnel: Tunnel, phase: Phase)

  /** A proxied request that passed the lookup and holds the tunnel it found. */
  datatype Proxied = Proxied(userID: string, tunnel: Tunnel)

  datatype State = State(
    tunnels: map<string, Tunnel>,
    done: set<nat>,                // QUIC context done, or websocket `done` channel closed
    closed: set<nat>,              // closed by the relay itself
    handlers: map<nat, Handler>,
    requests: map<nat, Proxied>)

  datatype Step =
    | RegisterQuic(x: nat, deviceID: string, userID: string)
    | RegisterWs(x: nat, deviceID: string, userID: string)
    | SendRegistered(x: nat, ok: bool)
    | TransportDone(x: nat)
    | Cleanup(x: nat)
    | Evict(x: nat)
    | Lookup(r: nat, deviceID: string, userID: string)
    | OpenFailed(r: nat)

  const INITIAL := State(map[], {}, {}, map[], map[])

  // ----- The locked blocks -----

  function Insert(s: State, x: nat, t: Tunnel): State {
    s.(tunnels := s.tunnels[t.deviceID := t], handlers := s.handlers[x := Handler(t, Registered)])
  }

  /** CloseWithError ends the QUIC context at once; closing a websocket only makes its read loop fail later. */
  function Close(s: State, t: Tunnel): State {
    s.(closed := s.closed + (if t.conn.Some? then {t.conn.value} else {}) + (if t.ws.Some? then {t.ws.value} else {}),
       done := s.done + if t.conn.Some? then {t.conn.value} else {})
  }

  /** What a new registration sees as a dead predecessor; the QUIC path never looks at a websocket's `done`. */
  predicate SeenDead(s: State, t: Tunnel, byWs: bool) {
    if t.conn.Some? then t.conn.value in s.done
    else byWs && (t.ws.Some? ==> t.ws.value in s.done)
  }

  function Register(s: State, x: nat, t: Tunnel): State {
    if t.deviceID !in s.tunnels then Insert(s, x, t)
    else
      var existing := s.tunnels[t.deviceID];
      if SeenDead(s, existing, t.ws.Some?) then Insert(s, x, t)
      else if t.userID != "" && existing.userID == t.userID then Insert(Close(s, existing), x, t)
      else s.(closed := s.closed + {x}, done := if t.conn.Some? then s.done + {x} else s.done)
  }

  function RemoveIfConn(s: State, t: Tunnel): State {
    if t.deviceID in s.tunnels && s.tunnels[t.deviceID].conn == t.conn then s.(tunnels := s.tunnels - {t.deviceID}) else s
  }

  function CleanupTunnel(s: State, x: nat): State
    requires x in s.handlers
  {
    var t := s.handlers[x].tunnel;
    var current := t.deviceID in s.tunnels
      && if t.conn.Some? then s.tunnels[t.deviceID].conn == t.conn else s.tunnels[t.deviceID].ws == t.ws;
    s.(tunnels := if current then s.tunnels - {t.deviceID} else s.tunnels,
       handlers := s.handlers[x := Handler(t, Finished)])
  }

  function EvictIfCurrent(s: State, t: Tunnel): State {
    if t.conn.None? then s
    else if t.deviceID in s.tunnels && s.tunnels[t.deviceID].conn == t.conn then Close(RemoveIfConn(s, t), t)
    else s
  }

  predicate Admits(t: Tunnel, userID: string) {
    !(userID != "" && t.userID != "" && t.userID != userID)
  }

  predicate Enabled(s: State, e: Step) {
    match e
    case RegisterQuic(x, _, _) => x !in s.handlers && x !in s.closed
    case RegisterWs(x, _, _) => x !in s.handlers && x !in s.closed && x !in s.done
    case SendRegistered(x, _) => x in s.handlers && s.handlers[x].tunnel.ws.Some? && s.handlers[x].phase == Registered
    case TransportDone(x) => x in s.handlers ==> s.handlers[x].tunnel.conn.Some? || s.handlers[x].phase == Serving
    case Cleanup(x) =>
      && x in s.handlers && x in s.done
      && s.handlers[x].phase == if s.handlers[x].tunnel.conn.Some? then Registered else Serving
    case Evict(x) => x in s.handlers
    case Lookup(r, _, _) => r !in s.requests
    case OpenFailed(r) => r in s.requests && s.requests[r].tunnel.conn.Some?
  }

  function Next(s: State, e: Step): State
    requires Enabled(s, e)
  {
    match e
    case RegisterQuic(x, d, u) => Register(s, x, Tunnel(d, Some(x), None, u))
    case RegisterWs(x, d, u) => Register(s, x, Tunnel(d, None, Some(x), u))
    case SendRegistered(x, ok) =>
      var t := s.handlers[x].tunnel;
      if ok then s.(handlers := s.handlers[x := Handler(t, Serving)])
      else s.(handlers := s.handlers[x := Handler(t, Finished)], closed := s.closed + {x})
    case TransportDone(x) => s.(done := s.done + {x})
    case Cleanup(x) => CleanupTunnel(s, x)
    case Evict(x) => EvictIfCurrent(s, s.handlers[x].tunnel)
    case Lookup(r, d, u) =>
      if d in s.tunnels && Admits(s.tunnels[d], u) then s.(requests := s.requests[r := Proxied(u, s.tunnels[d])]) else s
    case OpenFailed(r) => RemoveIfConn(s, s.requests[r].tunnel)
  }

  // ----- Runs -----

  /** A run: states[k+1] is reached from states[k] by steps[k]. */
  ghost predicate Run(states: seq<State>, steps: seq<Step>) {
    && |states| == |steps| + 1
    && states[0] == INITIAL
    && forall k :: 0 <= k < |steps| ==> Enabled(states[k], steps[k]) && states[k+1] == Next(states[k], steps[k])
  }

  /** The transport a removing step acts for. */
  function ActsFor(s: State, e: Step): Option<nat> {
    match e
    case Cleanup(x) => Some(x)
    case Evict(x) => Some(x)
    case OpenFailed(r) => if r in s.requests then s.requests[r].tunnel.conn else None
    case _ => None
  }

  predicate Registers(e: Step, d: string) {
    (e.RegisterQuic? || e.RegisterWs?) && e.deviceID == d
  }

  // ----- The invariant -----

  ghost predicate Listed(s: State, t: Tunnel) {
    && t.OneTransport()
    && t.Transport().value in s.handlers
    && s.handlers[t.Transport().value].tunnel == t
  }

  /** The goroutine of a websocket whose "registered" reply failed returned without a clean-up. */
  ghost predicate Orphan(s: State, t: Tunnel) {
    && t.conn.None? && t.ws.Some? && t.ws.value in s.handlers && s.handlers[t.ws.value] == Handler(t, Finished)
    && t.ws.value in s.closed && t.ws.value !in s.done
  }

  ghost predicate Inv(s: State) {
    && (forall d :: d in s.tunnels ==> s.tunnels[d].deviceID == d && Listed(s, s.tunnels[d]))
    && (forall x :: x in s.handlers ==> s.handlers[x].tunnel.OneTransport() && s.handlers[x].tunnel.Transport() == Some(x))
    && (forall r :: r in s.requests ==> Listed(s, s.requests[r].tunnel) && Admits(s.requests[r].tunnel, s.requests[r].userID))
    && (forall d :: d in s.tunnels && s.handlers[s.tunnels[d].Transport().value].phase == Finished ==> Orphan(s, s.tunnels[d]))
    && (forall x :: x in s.handlers && x in s.done && s.handlers[x].tunnel.ws.Some? ==> s.handlers[x].phase != Registered)
  }

  lemma InsertKeepsInv(s: State, x: nat, t: Tunnel)
    requires Inv(s) && x !in s.handlers && t.OneTransport() && t.Transport() == Some(x)
    requires t.ws.Some? ==> x !in s.done
    ensures Inv(Insert(s, x, t))
  {
  }

  lemma CloseKeepsInv(s: State, t: Tunnel)
    requires Inv(s) && Listed(s, t)
    ensures Inv(Close(s, t))
  {
  }

  lemma RegisterKeepsInv(s: State, x: nat, t: Tunnel)
    requires Inv(s) && x !in s.handlers && x !in s.closed && t.OneTransport() && t.Transport() == Some(x)
    requires t.ws.Some? ==> x !in s.done
    ensures Inv(Register(s, x, t))
  {
    InsertKeepsInv(s, x, t);
    RefuseKeepsInv(s, x, t);
    if t.deviceID in s.tunnels {
      EntryIsListed(s, t.deviceID);
      CloseKeepsInv(s, s.tunnels[t.deviceID]);
      CloseSparesNew(s, s.tunnels[t.deviceID], x, t);
      hide Inv, Insert, Close, SeenDead;
      if t.userID != "" && s.tunnels[t.deviceID].userID == t.userID {
        InsertKeepsInv(Close(s, s.tunnels[t.deviceID]), x, t);
      }
    }
  }

  lemma EntryIsListed(s: State, d: string)
    requires Inv(s) && d in s.tunnels
    ensures Listed(s, s.tunnels[d])
  {
  }

  lemma CloseSparesNew(s: State, old_: Tunnel, x: nat, t: Tunnel)
    requires Listed(s, old_) && x !in s.handlers && (t.ws.Some? ==> x !in s.done)
    ensures x !in Close(s, old_).handlers && (t.ws.Some? ==> x !in Close(s, old_).done)
  {
  }

  lemma RefuseKeepsInv(s: State, x: nat, t: Tunnel)
    requires Inv(s) && x !in s.handlers
    ensures Inv(s.(closed := s.closed + {x}, done := if t.conn.Some? then s.done + {x} else s.done))
  {
  }

  lemma RemoveKeepsInv(s: State, t: Tunnel)
    requires Inv(s) && Listed(s, t)
    ensures Inv(RemoveIfConn(s, t)) && Inv(EvictIfCurrent(s, t))
  {
    CloseKeepsInv(RemoveIfConn(s, t), t);
  }

  lemma CleanupKeepsInv(s: State, x: nat)
    requires Inv(s) && Enabled(s, Cleanup(x))
    ensures Inv(CleanupTunnel(s, x))
  {
  }

  lemma SendKeepsInv(s: State, x: nat, ok: bool)
    requires Inv(s) && Enabled(s, SendRegistered(x, ok))
    ensures Inv(Next(s, SendRegistered(x, ok)))
  {
    var s' := Next(s, SendRegistered(x, ok));
    forall d | d in s'.tunnels && s'.handlers[s.tunnels[d].Transport().value].phase == Finished
      ensures Orphan(s', s'.tunnels[d])
    {
      if s.tunnels[d].Transport() != Some(x) { assert Orphan(s, s.tunnels[d]); }
    }
  }

  lemma DoneKeepsInv(s: State, x: nat)
    requires Inv(s) && Enabled(s, TransportDone(x))
    ensures Inv(Next(s, TransportDone(x)))
  {
  }

  lemma LookupKeepsInv(s: State, r: nat, d: string, u: string)
    requires Inv(s) && Enabled(s, Lookup(r, d, u))
    ensures Inv(Next(s, Lookup(r, d, u)))
  {
  }

  lemma HandlersAreListed(s: State)
    requires Inv(s)
    ensures forall x :: x in s.handlers ==> Listed(s, s.handlers[x].tunnel)
    ensures forall r :: r in s.requests ==> Listed(s, s.requests[r].tunnel)
  {
  }

  lemma StepKeepsInv(s: State, e: Step)
    requires Inv(s) && Enabled(s, e)
    ensures Inv(Next(s, e))
  {
    hide Inv, Register, EvictIfCurrent, RemoveIfConn, CleanupTunnel;
    HandlersAreListed(s);
    match e {
      case RegisterQuic(x, d, u) => RegisterKeepsInv(s, x, Tunnel(d, Some(x), None, u));
      case RegisterWs(x, d, u) => RegisterKeepsInv(s, x, Tunnel(d, None, Some(x), u));
      case Cleanup(x) => CleanupKeepsInv(s, x);
      case Evict(x) => RemoveKeepsInv(s, s.handlers[x].tunnel);
      case OpenFailed(r) => RemoveKeepsInv(s, s.requests[r].tunnel);
      case SendRegistered(x, ok) => SendKeepsInv(s, x, ok);
      case TransportDone(x) => DoneKeepsInv(s, x);
      case Lookup(r, d, u) => LookupKeepsInv(s, r, d, u);
    }
  }

  lemma {:induction false} RunInv(states: seq<State>, steps: seq<Step>, k: nat)
    requires Run(states, steps) && k < |states|
    ensures Inv(states[k])
  {
    if k > 0 {
      RunInv(states, steps, k - 1);
      StepKeepsInv(states[k-1], steps[k-1]);
    }
  }

  /** Keys match device ids, exactly one transport is set, and no transport sits under two keys. */
  lemma EntriesAreConsistent(states: seq<State>, steps: seq<Step>, k: nat, d: string, d': string)
    requires Run(states, steps) && k < |states| && d in states[k].tunnels && d' in states[k].tunnels
    ensures states[k].tunnels[d].deviceID == d && states[k].tunnels[d].OneTransport()
    ensures d != d' ==> states[k].tunnels[d].Transport() != states[k].tunnels[d'].Transport()
  {
    RunInv(states, steps, k);
  }

  /** What may happen at any moment: an eviction of any registered tunnel, a lookup under a new id, the end of a QUIC
      connection, and a failed open for any request carried by one; a served websocket may end as well. */
  lemma AtAnyMoment(s: State, x: nat, r: nat, d: string, u: string)
    ensures x in s.handlers ==> Enabled(s, Evict(x)) && (s.handlers[x].tunnel.conn.Some? || s.handlers[x].phase == Serving ==> Enabled(s, TransportDone(x)))
    ensures if r in s.requests then s.requests[r].tunnel.conn.Some? ==> Enabled(s, OpenFailed(r)) else Enabled(s, Lookup(r, d, u))
  {
  }

  // ----- Who may remove an entry -----

  /** Outside registrations for its key, an entry goes exactly when a step acts for its own transport
      (evicting a websocket is a no-op), and it never changes: a late clean-up cannot drop a successor. */
  lemma RemovedOnlyForItself(s: State, e: Step, d: string)
    requires Inv(s) && Enabled(s, e) && !Registers(e, d)
    ensures d !in s.tunnels ==> d !in Next(s, e).tunnels
    ensures d in s.tunnels && d in Next(s, e).tunnels ==> Next(s, e).tunnels[d] == s.tunnels[d]
    ensures d in s.tunnels ==>
      (d !in Next(s, e).tunnels <==>
        ActsFor(s, e) == s.tunnels[d].Transport() && (e.Evict? ==> s.tunnels[d].conn.Some?))
  {
  }

  /** Over any stretch of any run an entry is gone or replaced only through a step for its own transport or a
      registration for its device, made while it was still in place. */
  lemma {:induction false} EntryEndsOnlyByItself(states: seq<State>, steps: seq<Step>, i: nat, j: nat, d: string) returns (k: nat)
    requires Run(states, steps) && i <= j < |states| && d in states[i].tunnels
    requires d !in states[j].tunnels || states[j].tunnels[d] != states[i].tunnels[d]
    ensures i <= k < j && d in states[k].tunnels && states[k].tunnels[d] == states[i].tunnels[d]
    ensures Registers(steps[k], d) || ActsFor(states[k], steps[k]) == states[i].tunnels[d].Transport()
    decreases j - i
  {
    hide Next, Enabled;
    k := i;
    if !Registers(steps[i], d) && ActsFor(states[i], steps[i]) != states[i].tunnels[d].Transport() {
      RunInv(states, steps, i);
      RemovedOnlyForItself(states[i], steps[i], d);
      k := EntryEndsOnlyByItself(states, steps, i + 1, j, d);
    }
  }

  /** A registration succeeds iff its key is free, its predecessor looks dead, or both owners are the same
      non-empty user; a predecessor replaced while alive is closed in that very step.
      A QUIC registration does not recognise a dead websocket. */
  lemma RegistrationVerdict(s: State, e: Step, d: string)
    requires Inv(s) && Enabled(s, e) && Registers(e, d)
    ensures var s' := Next(s, e);
      var x := e.x;
      var free := d !in s.tunnels
        || (s.tunnels[d].Transport().value in s.done && (e.RegisterWs? || s.tunnels[d].conn.Some?));
      var reconnect := d in s.tunnels && e.userID != "" && s.tunnels[d].userID == e.userID;
      && (forall d' :: d' != d ==> (d' in s'.tunnels <==> d' in s.tunnels) && (d' in s.tunnels ==> s'.tunnels[d'] == s.tunnels[d']))
      && (if free || reconnect then
            && d in s'.tunnels && s'.tunnels[d].Transport() == Some(x) && s'.tunnels[d].userID == e.userID
            && s'.tunnels[d].conn.Some? == e.RegisterQuic?
            && x in s'.handlers && x !in s'.closed
          else s'.tunnels == s.tunnels && x in s'.closed && x !in s'.handlers)
      && (!free && reconnect ==> s.tunnels[d].Transport().value in s'.closed)
  {
  }

  /** A websocket registered, served and died, and its clean-up has not run yet. */
  function DeadWebsocket(d: string, u: string): State {
    var t := Tunnel(d, None, Some(0), u);
    State(map[d := t], {0}, {}, map[0 := Handler(t, Serving)], map[])
  }

  lemma DeadWebsocketArises(d: string, u: string) returns (states: seq<State>, steps: seq<Step>)
    ensures Run(states, steps) && steps == [RegisterWs(0, d, u), SendRegistered(0, true), TransportDone(0)]
    ensures states[3] == DeadWebsocket(d, u)
  {
    steps := [RegisterWs(0, d, u), SendRegistered(0, true), TransportDone(0)];
    var s1 := Next(INITIAL, steps[0]);
    var s2 := Next(s1, steps[1]);
    states := [INITIAL, s1, s2, Next(s2, steps[2])];
  }

  /** There a QUIC registration by anybody but the same non-empty owner is refused, and a websocket one of
      anybody is accepted. */
  lemma OnlyWebsocketsSeeItDead(d: string, u: string, u': string)
    requires u' == "" || u' != u
    ensures var s := DeadWebsocket(d, u);
      && Enabled(s, RegisterQuic(1, d, u')) && Enabled(s, RegisterWs(1, d, u'))
      && var quic, ws := Next(s, RegisterQuic(1, d, u')), Next(s, RegisterWs(1, d, u'));
         && quic.tunnels == s.tunnels && 1 in quic.closed && 1 !in quic.handlers
         && d in ws.tunnels && ws.tunnels[d] == Tunnel(d, None, Some(1), u')
  {
  }

  /** While an entry's transport is up, only a reconnect of its own non-empty owner can take its key. */
  lemma LiveEntryIsNotHijacked(s: State, e: Step, d: string)
    requires Inv(s) && Enabled(s, e) && d in s.tunnels && d in Next(s, e).tunnels
    requires s.tunnels[d].Transport().value !in s.done && Next(s, e).tunnels[d] != s.tunnels[d]
    ensures Registers(e, d) && e.userID != ""
    ensures s.tunnels[d].userID == Next(s, e).tunnels[d].userID == e.userID
    ensures s.tunnels[d].Transport().value in Next(s, e).closed
  {
    if !Registers(e, d) { RemovedOnlyForItself(s, e, d); } else { RegistrationVerdict(s, e, d); }
  }

  /** The step at k ended the current entry for d: it acted for that transport, or the transport was down. */
  ghost predicate Ends(s: State, e: Step, d: string) {
    && d in s.tunnels
    && (ActsFor(s, e) == s.tunnels[d].Transport() || (Registers(e, d) && s.tunnels[d].Transport().value in s.done))
  }

  /** Over any stretch of any run, a device's key changes owner only through the death or removal of a
      tunnel of the first owner. */
  lemma {:induction false} OwnerChangeNeedsAnEnd(states: seq<State>, steps: seq<Step>, i: nat, j: nat, d: string) returns (k: nat)
    requires Run(states, steps) && i <= j < |states|
    requires d in states[i].tunnels && d in states[j].tunnels && states[i].tunnels[d].userID != states[j].tunnels[d].userID
    ensures i <= k < j && Ends(states[k], steps[k], d) && states[k].tunnels[d].userID == states[i].tunnels[d].userID
    decreases j - i
  {
    k := i;
    if !Ends(states[i], steps[i], d) {
      RunInv(states, steps, i);
      if Registers(steps[i], d) {
        RegistrationVerdict(states[i], steps[i], d);
      } else {
        RemovedOnlyForItself(states[i], steps[i], d);
      }
      k := OwnerChangeNeedsAnEnd(states, steps, i + 1, j, d);
    }
  }

  /** In a reachable state a lookup finds the device's entry, and the request is carried by exactly that tunnel,
      if and only if the key is there and either side's user is empty or both are equal; nothing else changes. */
  lemma LookupFindsIff(states: seq<State>, steps: seq<Step>, k: nat, r: nat, d: string, u: string)
    requires Run(states, steps) && k < |states| && Enabled(states[k], Lookup(r, d, u))
    ensures var s, s' := states[k], Next(states[k], Lookup(r, d, u));
      && (r in s'.requests <==> d in s.tunnels && (u == "" || s.tunnels[d].userID == "" || s.tunnels[d].userID == u))
      && (r in s'.requests ==> s'.requests[r] == Proxied(u, s.tunnels[d]) && s.tunnels[d].deviceID == d)
      && s' == s.(requests := s'.requests) && s.requests == s'.requests - {r}
  {
    RunInv(states, steps, k);
  }

  /** The transport a registration finds up, and replaces, under its own non-empty owner. */
  predicate Supersedes(s: State, e: Step, y: nat) {
    && (e.RegisterQuic? || e.RegisterWs?) && e.deviceID in s.tunnels
    && s.tunnels[e.deviceID].Transport() == Some(y)
    && e.userID != "" && s.tunnels[e.deviceID].userID == e.userID
    && !SeenDead(s, s.tunnels[e.deviceID], e.RegisterWs?)
  }

  /** The relay closes a transport exactly when its registration is refused, when its own owner's registration
      supersedes it, when its "registered" reply failed, or when it is evicted while still listed. */
  lemma ClosesIff(s: State, e: Step, y: nat)
    requires Inv(s) && Enabled(s, e) && y !in s.closed
    ensures y in Next(s, e).closed <==>
      || ((e.RegisterQuic? || e.RegisterWs?) && e.x == y && y !in Next(s, e).handlers)
      || Supersedes(s, e, y)
      || e == SendRegistered(y, false)
      || (e == Evict(y) && s.handlers[y].tunnel.conn.Some? && s.handlers[y].tunnel.deviceID in s.tunnels
          && s.tunnels[s.handlers[y].tunnel.deviceID].conn == Some(y))
  {
    hide Inv;
    match e {
      case RegisterQuic(x, d, u) => if d in s.tunnels { EntryIsListed(s, d); }
      case RegisterWs(x, d, u) => if d in s.tunnels { EntryIsListed(s, d); }
      case Evict(x) => HandlerIsOwn(s, x);
      case _ =>
    }
  }

  /** A transport that is up comes to be done exactly when it ends by itself or is a QUIC connection the relay closes;
      a closed websocket is done only once its read loop fails. */
  lemma DoneIff(s: State, e: Step, y: nat)
    requires Inv(s) && Enabled(s, e) && y !in s.done && y !in s.closed
    ensures y in Next(s, e).done <==>
      || e == TransportDone(y)
      || (y in Next(s, e).closed && (if y in s.handlers then s.handlers[y].tunnel.conn.Some? else e.RegisterQuic? && e.x == y))
  {
    hide Inv;
    match e {
      case RegisterQuic(x, d, u) => if d in s.tunnels { EntryIsListed(s, d); }
      case RegisterWs(x, d, u) => if d in s.tunnels { EntryIsListed(s, d); }
      case Evict(x) => HandlerIsOwn(s, x);
      case SendRegistered(x, ok) => HandlerIsOwn(s, x);
      case _ =>
    }
  }

  lemma HandlerIsOwn(s: State, x: nat)
    requires Inv(s) && x in s.handlers
    ensures s.handlers[x].tunnel.OneTransport() && s.handlers[x].tunnel.Transport() == Some(x)
  {
  }

  /** A request authorised as a non-empty user keeps, whatever happens to the map afterwards, the tunnel
      its lookup found, and that tunnel belongs to the user or to nobody. */
  lemma {:induction false} CarriedWithinOneOwner(states: seq<State>, steps: seq<Step>, i: nat, j: nat, r: nat)
    requires Run(states, steps) && i <= j < |states| && r in states[i].requests
    ensures r in states[j].requests && states[j].requests[r] == states[i].requests[r]
    ensures var p := states[j].requests[r]; p.userID != "" ==> p.tunnel.userID == p.userID || p.tunnel.userID == ""
    decreases j
  {
    RunInv(states, steps, j);
    if i < j { CarriedWithinOneOwner(states, steps, i, j - 1, r); }
  }

  // ----- A failed "registered" reply -----

  lemma OrphanStep(s: State, e: Step, d: string)
    requires Inv(s) && Enabled(s, e) && d in s.tunnels && Orphan(s, s.tunnels[d])
    requires Registers(e, d) ==> e.userID == "" || e.userID != s.tunnels[d].userID
    ensures d in Next(s, e).tunnels && Next(s, e).tunnels[d] == s.tunnels[d] && Orphan(Next(s, e), s.tunnels[d])
  {
    var t := s.tunnels[d];
    var w := t.ws.value;
    if Registers(e, d) { RegistrationVerdict(s, e, d); } else { RemovedOnlyForItself(s, e, d); }
    match e {
      case RegisterQuic(x, d', u) => assert Next(s, e).handlers[w] == s.handlers[w];
      case RegisterWs(x, d', u) => assert Next(s, e).handlers[w] == s.handlers[w];
      case Evict(x) =>
      case _ =>
    }
  }

  ghost predicate ReplyFailed(steps: seq<Step>, k: nat, x: nat)
    requires k <= |steps|
  {
    exists j :: 0 <= j < k && steps[j] == SendRegistered(x, false)
  }

  /** How one step changes where a handler stands. */
  lemma PhaseMoves(s: State, e: Step, x: nat)
    requires Enabled(s, e) && x in s.handlers
    ensures var s' := Next(s, e);
      && x in s'.handlers && s'.handlers[x].tunnel == s.handlers[x].tunnel
      && (x in s.done ==> x in s'.done)
      && (s'.handlers[x].phase == Finished <==> s.handlers[x].phase == Finished || e == SendRegistered(x, false) || e == Cleanup(x))
      && (e == Cleanup(x) ==> x in s.done)
  {
  }

  lemma NewHandlerIsRegistered(s: State, e: Step, x: nat)
    requires Enabled(s, e) && x !in s.handlers && x in Next(s, e).handlers
    ensures Next(s, e).handlers[x].phase == Registered && e != SendRegistered(x, false)
  {
  }

  /** The handler of a transport that is not done has finished iff its "registered" reply failed. */
  lemma {:induction false} FinishedIff(states: seq<State>, steps: seq<Step>, k: nat, x: nat)
    requires Run(states, steps) && k < |states|
    ensures x in states[k].handlers && x !in states[k].done ==>
      (states[k].handlers[x].phase == Finished <==> ReplyFailed(steps, k, x))
    ensures x !in states[k].handlers ==> !ReplyFailed(steps, k, x)
  {
    if k > 0 {
      FinishedIff(states, steps, k - 1, x);
      var s, e := states[k-1], steps[k-1];
      assert ReplyFailed(steps, k, x) <==> ReplyFailed(steps, k - 1, x) || e == SendRegistered(x, false);
      if x in s.handlers {
        PhaseMoves(s, e, x);
      } else if x in states[k].handlers {
        NewHandlerIsRegistered(s, e, x);
      }
      hide Next, Enabled, ReplyFailed;
    }
  }

  /** Over every run, an entry's goroutine is gone if and only if an earlier step was the failed
      "registered" reply on its own transport. */
  lemma OrphanedIff(states: seq<State>, steps: seq<Step>, k: nat, d: string)
    requires Run(states, steps) && k < |states| && d in states[k].tunnels
    ensures Listed(states[k], states[k].tunnels[d])
    ensures var x := states[k].tunnels[d].Transport().value;
      && (states[k].handlers[x].phase == Finished <==> ReplyFailed(steps, k, x))
      && (states[k].handlers[x].phase == Finished <==> Orphan(states[k], states[k].tunnels[d]))
  {
    RunInv(states, steps, k);
    var s, t := states[k], states[k].tunnels[d];
    var x := t.Transport().value;
    FinishedIff(states, steps, k, x);
    if ReplyFailed(steps, k, x) { FailedReplyStays(states, steps, k, x); }
  }

  /** A failed reply leaves a websocket that is never reported done. */
  lemma {:induction false} FailedReplyStays(states: seq<State>, steps: seq<Step>, k: nat, x: nat)
    requires Run(states, steps) && k < |states| && ReplyFailed(steps, k, x)
    ensures x in states[k].handlers && LeftBehind(states[k], x)
  {
    var s, e := states[k-1], steps[k-1];
    RunInv(states, steps, k - 1);
    assert ReplyFailed(steps, k, x) <==> ReplyFailed(steps, k - 1, x) || e == SendRegistered(x, false);
    hide Next, Enabled, Inv;
    if ReplyFailed(steps, k - 1, x) {
      FailedReplyStays(states, steps, k - 1, x);
      LeftBehindStays(s, e, x);
    } else {
      LeftBehindArises(s, x);
    }
  }

  predicate LeftBehind(s: State, x: nat)
    requires x in s.handlers
  {
    s.handlers[x].phase == Finished && s.handlers[x].tunnel.ws.Some? && x !in s.done
  }

  lemma LeftBehindStays(s: State, e: Step, x: nat)
    requires Inv(s) && Enabled(s, e) && x in s.handlers && LeftBehind(s, x)
    ensures x in Next(s, e).handlers && LeftBehind(Next(s, e), x)
  {
    PhaseMoves(s, e, x);
  }

  lemma LeftBehindArises(s: State, x: nat)
    requires Inv(s) && Enabled(s, SendRegistered(x, false))
    ensures x in Next(s, SendRegistered(x, false)).handlers && LeftBehind(Next(s, SendRegistered(x, false)), x)
  {
  }

  ghost predicate Reclaims(e: Step, t: Tunnel) {
    Registers(e, t.deviceID) && e.userID != "" && e.userID == t.userID
  }

  ghost predicate NotReclaimed(steps: seq<Step>, i: nat, j: nat, t: Tunnel)
    requires i <= j <= |steps|
  {
    forall k :: i <= k < j ==> !Reclaims(steps[k], t)
  }

  /** A tunnel that is registered but no longer listed never comes back. */
  lemma NeverReturns(s: State, e: Step, d: string, t: Tunnel)
    requires Inv(s) && Enabled(s, e) && t.OneTransport() && t.Transport().value in s.handlers
    requires d in s.tunnels ==> s.tunnels[d] != t
    ensures d in Next(s, e).tunnels ==> Next(s, e).tunnels[d] != t
    ensures t.Transport().value in Next(s, e).handlers
  {
    if Registers(e, d) { RegistrationVerdict(s, e, d); } else { RemovedOnlyForItself(s, e, d); }
    PhaseMoves(s, e, t.Transport().value);
  }

  /** A websocket whose "registered" reply failed holds its key for exactly as long as its own non-empty
      owner does not register again. With an empty owner (a shared-password relay) no step of any run ever
      frees the key. */
  lemma {:induction false} OrphanKeepsItsKeyIff(states: seq<State>, steps: seq<Step>, i: nat, j: nat, d: string)
    requires Run(states, steps) && i <= j < |states|
    requires d in states[i].tunnels && Orphan(states[i], states[i].tunnels[d])
    ensures var t := states[i].tunnels[d];
      && t.deviceID == d && t.ws.value in states[j].handlers
      && (d in states[j].tunnels && states[j].tunnels[d] == t <==> NotReclaimed(steps, i, j, t))
      && (NotReclaimed(steps, i, j, t) ==> Orphan(states[j], t))
    decreases j
  {
    RunInv(states, steps, i);
    var t := states[i].tunnels[d];
    if i < j {
      OrphanKeepsItsKeyIff(states, steps, i, j - 1, d);
      RunInv(states, steps, j - 1);
      var s, e := states[j-1], steps[j-1];
      assert NotReclaimed(steps, i, j, t) <==> NotReclaimed(steps, i, j - 1, t) && !Reclaims(e, t);
      PhaseMoves(s, e, t.ws.value);
      hide Next, Enabled, Inv, NotReclaimed;
      if !NotReclaimed(steps, i, j - 1, t) {
        NeverReturns(s, e, d, t);
      } else if Reclaims(e, t) {
        Reclaimed(s, e, d);
      } else {
        OrphanStep(s, e, d);
      }
    }
  }

  lemma Reclaimed(s: State, e: Step, d: string)
    requires Inv(s) && Enabled(s, e) && d in s.tunnels && Reclaims(e, s.tunnels[d]) && s.tunnels[d].deviceID == d
    ensures d in Next(s, e).tunnels && Next(s, e).tunnels[d] != s.tunnels[d]
  {
    RegistrationVerdict(s, e, d);
  }

  /** Such an orphan is reachable. */
  lemma OrphanArises(d: string, u: string) returns (states: seq<State>, steps: seq<Step>)
    ensures Run(states, steps) && |states| == 3 && d in states[2].tunnels && states[2].tunnels[d].userID == u
    ensures Orphan(states[2], states[2].tunnels[d])
  {
    steps := [RegisterWs(0, d, u), SendRegistered(0, false)];
    var s1 := Next(INITIAL, steps[0]);
    states := [INITIAL, s1, Next(s1, steps[1])];
  }

  // ----- The liveness watcher -----

  /** What each turn of the watcher's loop meets. */
  datatype Turn = ConnDone | Answered | Failed

  /** The turn at which the watcher evicts: the second of two failed probes in a row, before the connection
      is done. */
  ghost predicate EvictsAt(turns: seq<Turn>, i: nat) {
    && 1 <= i < |turns| && turns[i] == Failed && turns[i-1] == Failed
    && (forall k :: 0 <= k < i ==> turns[k] != ConnDone)
    && (forall k :: 1 <= k < i ==> turns[k] != Failed || turns[k-1] != Failed)
  }

  /** The watcher's loop variable, and what its turns met so far. */
  class Watcher {
    var fails: nat
    ghost var turns: seq<Turn>

    /** Still watching: nothing so far has stopped it. */
    ghost predicate Valid()
      reads this
    {
      && fails == (if turns != [] && turns[|turns|-1] == Failed then 1 else 0)
      && (forall k :: 0 <= k < |turns| ==> turns[k] != ConnDone)
      && (forall k :: 1 <= k < |turns| ==> turns[k] != Failed || turns[k-1] != Failed)
    }

    constructor ()
      ensures Valid() && turns == []
    {
      fails, turns := 0, [];
    }

    method Observe(turn: Turn) returns (stop: bool, evict: bool)
      requires Valid()
      modifies this
      ensures turns == old(turns) + [turn]
      ensures evict <==> EvictsAt(turns, |turns| - 1)
      ensures stop <==> turn == ConnDone || evict
      ensures !stop ==> Valid()
    {
      turns := turns + [turn];
      match turn {
        case ConnDone => return true, false;
        case Failed =>
          fails := fails + 1;
          return fails >= 2, fails >= 2;
        case Answered =>
          fails := 0;
          return false, false;
      }
    }
  }

  // ----- The server object -----

  class RelayServer {
    var tunnels: map<string, Tunnel>
    var done: set<nat>
    var closed: set<nat>
    var handlers: map<nat, Handler>
    var requests: map<nat, Proxied>

    ghost function View(): State
      reads this
    {
      State(tunnels, done, closed, handlers, requests)
    }

    constructor ()
      ensures View() == INITIAL
    {
      tunnels, done, closed, handlers, requests := map[], {}, {}, map[], map[];
    }

    method CloseTransports(t: Tunnel)
      modifies this`done, this`closed
      ensures View() == Close(old(View()), t)
    {
      if t.conn.Some? { done, closed := done + {t.conn.value}, closed + {t.conn.value}; }
      if t.ws.Some? { closed := closed + {t.ws.value}; }
    }

    /** The registration block of handleAgentConnection. */
    method RegisterAgentConnection(conn: nat, deviceID: string, userID: string) returns (ok: bool)
      requires Enabled(View(), RegisterQuic(conn, deviceID, userID))
      modifies this
      ensures View() == Next(old(View()), RegisterQuic(conn, deviceID, userID))
      ensures ok == (conn in handlers)
    {
      if deviceID in tunnels {
        var existing := tunnels[deviceID];
        var deadNow := existing.conn.Some? && existing.conn.value in done;
        if deadNow {
          tunnels := tunnels - {deviceID};
        } else if userID != "" && existing.userID == userID {
          CloseTransports(existing);
          tunnels := tunnels - {deviceID};
        } else {
          done, closed := done + {conn}, closed + {conn};
          return false;
        }
      }
      var tunnel := Tunnel(deviceID, Some(conn), None, userID);
      tunnels := tunnels[deviceID := tunnel];
      handlers := handlers[conn := Handler(tunnel, Registered)];
      assert tunnels == old(tunnels)[deviceID := tunnel];
      return true;
    }

    /** The registration block of handleAgentWebSocket. */
    method RegisterAgentWebSocket(ws: nat, deviceID: string, userID: string) returns (ok: bool)
      requires Enabled(View(), RegisterWs(ws, deviceID, userID))
      modifies this
      ensures View() == Next(old(View()), RegisterWs(ws, deviceID, userID))
      ensures ok == (ws in handlers)
    {
      if deviceID in tunnels {
        var existing := tunnels[deviceID];
        var alive := false;
        if existing.conn.Some? {
          alive := existing.conn.value !in done;
        } else if existing.ws.Some? {
          alive := existing.ws.value !in done;
        }
        if alive && userID != "" && existing.userID == userID {
          CloseTransports(existing);
          alive := false;
        }
        if alive {
          closed := closed + {ws};
          return false;
        }
        tunnels := tunnels - {deviceID};
      }
      var tunnel := Tunnel(deviceID, None, Some(ws), userID);
      tunnels := tunnels[deviceID := tunnel];
      handlers := handlers[ws := Handler(tunnel, Registered)];
      assert tunnels == old(tunnels)[deviceID := tunnel];
      return true;
    }

    /** The block a registration handler runs once its transport is done. */
    method CleanupAfterDone(x: nat)
      requires Enabled(View(), Cleanup(x))
      modifies this
      ensures View() == Next(old(View()), Cleanup(x))
    {
      var t := handlers[x].tunnel;
      if t.deviceID in tunnels {
        var cur := tunnels[t.deviceID];
        if (t.conn.Some? && cur.conn == t.conn) || (t.conn.None? && cur.ws == t.ws) {
          tunnels := tunnels - {t.deviceID};
        }
      }
      handlers := handlers[x := Handler(t, Finished)];
    }

    method EvictTunnelIfCurrent(x: nat) returns (evicted: bool)
      requires Enabled(View(), Evict(x))
      modifies this`tunnels, this`done, this`closed
      ensures View() == Next(old(View()), Evict(x))
      ensures evicted == (tunnels != old(tunnels))
      ensures var t := handlers[x].tunnel;
        && (evicted <==> t.conn.Some? && t.deviceID in old(tunnels) && old(tunnels)[t.deviceID].conn == t.conn)
        && (evicted ==> t.conn.value in done && t.conn.value in closed)
    {
      var t := handlers[x].tunnel;
      if t.conn.None? { return false; }
      if t.deviceID !in tunnels || tunnels[t.deviceID].conn != t.conn { return false; }
      tunnels := tunnels - {t.deviceID};
      assert t.deviceID in old(tunnels) && t.deviceID !in tunnels;
      CloseTransports(t);
      return true;
    }

    /** One turn of the watcher of transport x; any other steps may come between its turns. */
    method WatcherTurn(x: nat, watch: Watcher, turn: Turn) returns (stop: bool)
      requires Enabled(View(), Evict(x)) && watch.Valid()
      modifies this`tunnels, this`done, this`closed, watch
      ensures watch.turns == old(watch.turns) + [turn]
      ensures stop <==> turn == ConnDone || EvictsAt(watch.turns, |watch.turns| - 1)
      ensures !stop ==> watch.Valid()
      ensures View() == if EvictsAt(watch.turns, |watch.turns| - 1) then Next(old(View()), Evict(x)) else old(View())
    {
      var evict;
      stop, evict := watch.Observe(turn);
      if evict { var _ := EvictTunnelIfCurrent(x); }
    }

    /** The exact-match lookup and ownership backstop of handleProxy. */
    method LookupTunnel(r: nat, deviceID: string, userID: string) returns (found: Option<Tunnel>)
      requires Enabled(View(), Lookup(r, deviceID, userID))
      modifies this`requests
      ensures View() == Next(old(View()), Lookup(r, deviceID, userID))
      ensures found.Some? <==> deviceID in tunnels && (userID == "" || tunnels[deviceID].userID == "" || tunnels[deviceID].userID == userID)
      ensures found.Some? ==> found.value == tunnels[deviceID]
      ensures requests == if found.Some? then old(requests)[r := Proxied(userID, found.value)] else old(requests)
    {
      if deviceID !in tunnels { return None; }
      var tunnel := tunnels[deviceID];
      if userID != "" && tunnel.userID != "" && tunnel.userID != userID { return None; }
      requests := requests[r := Proxied(userID, tunnel)];
      return Some(tunnel);
    }

    /** The block handleProxy runs when OpenStreamSync fails. */
    method RemoveAfterFailedOpen(r: nat)
      requires Enabled(View(), OpenFailed(r))
      modifies this`tunnels
      ensures View() == Next(old(View()), OpenFailed(r))
    {
      var tunnel := requests[r].tunnel;
      if tunnel.deviceID in tunnels && tunnels[tunnel.deviceID].conn == tunnel.conn {
        tunnels := tunnels - {tunnel.deviceID};
      }
    }
  }
}
