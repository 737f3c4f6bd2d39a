/** relay/server.go, wsAgentTunnel: one websocket multiplexes concurrent requests by id.
    A call owns a one-slot channel (named by the call) and is registered in `pending` under its request id;
    the read loop looks the channel up under the mutex and offers the frame to it afterwards. Requests and
    the read loop's pongs are written to the socket under one further mutex, held until the write returns. */
module WsTunnel {
  import opened Wrappers
  import opened Sums

  datatype Kind = Response | Error | Ping

  /** seqNo numbers the frames in the order the socket delivered them. */
  datatype Frame = Frame(seqNo: nat, kind: Kind, id: string)

  datatype Outcome = Reply(frame: Frame) | SendFailed | TunnelClosed | Cancelled

  /** Queued: waits for the write mutex. Writing: holds it, the write has not returned.
      Left(o): returned but its deferred delete has not run yet. */
  datatype Phase = Queued | Writing | Waiting | Left(outcome: Outcome) | Finished(outcome: Outcome)

  datatype Call = Call(id: string, phase: Phase) {
    predicate InFlight() { !phase.Finished? }
  }

  /** Ponging: a ping was read and its pong waits for the write mutex or is being written. */
  datatype Reader = Idle | Offering(call: nat, frame: Frame) | Ponging | Stopped

  datatype Holder = ByCall(c: nat) | ByReader

  datatype State = State(
    pending: map<string, nat>,
    slots: map<nat, Option<Frame>>,
    calls: map<nat, Call>,
    reader: Reader,
    writer: Option<Holder>,
    received: nat)
  {
    /** readLoop closes the done channel when it returns. */
    predicate Done() { reader.Stopped? }
  }

  const INITIAL := State(map[], map[], map[], Idle, None, 0)

  datatype Step =
    | Begin(c: nat, id: string)
    | Lock(c: nat)
    | Sent(c: nat, ok: bool)           // the call's write returns
    | Receive(kind: Kind, id: string)
    | Offer
    | LockForPong
    | PongSent(ok: bool)               // the pong's write returns; its error is ignored
    | SocketError
    | TakeFrame(c: nat)
    | TakeDone(c: nat)
    | TakeCancel(c: nat)
    | Leave(c: nat)

  predicate Enabled(s: State, e: Step) {
    match e
    case Begin(c, _) => c !in s.calls && c !in s.slots
    case Lock(c) => c in s.calls && s.calls[c].phase == Queued && s.writer.None?
    case Sent(c, _) => c in s.calls && s.calls[c].phase == Writing && s.writer == Some(ByCall(c))
    case Receive(_, _) => s.reader.Idle?
    case Offer => s.reader.Offering?
    case LockForPong => s.reader.Ponging? && s.writer.None?
    case PongSent(_) => s.reader.Ponging? && s.writer == Some(ByReader)
    case SocketError => s.reader.Idle?
    case TakeFrame(c) => c in s.calls && s.calls[c].phase == Waiting && c in s.slots && s.slots[c].Some?
    case TakeDone(c) => c in s.calls && s.calls[c].phase == Waiting && s.Done()
    case TakeCancel(c) => c in s.calls && s.calls[c].phase == Waiting
    case Leave(c) => c in s.calls && s.calls[c].phase.Left?
  }

  function SetPhase(s: State, c: nat, p: Phase): State
    requires c in s.calls
  {
    s.(calls := s.calls[c := s.calls[c].(phase := p)])
  }

  function Next(s: State, e: Step): State
    requires Enabled(s, e)
  {
    match e
    case Begin(c, id) =>
      s.(pending := s.pending[id := c], slots := s.slots[c := None], calls := s.calls[c := Call(id, Queued)])
    case Lock(c) => SetPhase(s.(writer := Some(ByCall(c))), c, Writing)
    case Sent(c, ok) => SetPhase(s.(writer := None), c, if ok then Waiting else Left(SendFailed))
    case Receive(kind, id) =>
      var f := Frame(s.received, kind, id);
      s.(received := s.received + 1,
         reader := if kind.Ping? then Ponging else if id in s.pending then Offering(s.pending[id], f) else Idle)
    case Offer =>
      var c := s.reader.call;
      s.(reader := Idle,
         slots := if c in s.slots && s.slots[c].None? then s.slots[c := Some(s.reader.frame)] else s.slots)
    case LockForPong => s.(writer := Some(ByReader))
    case PongSent(_) => s.(writer := None, reader := Idle)
    case SocketError => s.(reader := Stopped)
    case TakeFrame(c) => SetPhase(s.(slots := s.slots[c := None]), c, Left(Reply(s.slots[c].value)))
    case TakeDone(c) => SetPhase(s, c, Left(TunnelClosed))
    case TakeCancel(c) => SetPhase(s, c, Left(Cancelled))
    case Leave(c) =>
      SetPhase(s.(pending := s.pending - {s.calls[c].id}), c, Finished(s.calls[c].phase.outcome))
  }

  ghost predicate Run(states: seq<State>, steps: seq<Step>) {
    && |states| == |steps| + 1
    && states[0] == INITIAL
    && forall k :: 0 <= k < |steps| ==> Enabled(states[k], steps[k]) && states[k+1] == Next(states[k], steps[k])
  }

  // ----- Frames go where they belong, whatever the ids are -----

  /** The frame a call returned with, if any. */
  function Got(call: Call): Option<Frame> {
    match call.phase
    case Left(Reply(f)) => Some(f)
    case Finished(Reply(f)) => Some(f)
    case _ => None
  }

  function InSlot(s: State, c: nat): Option<Frame> {
    if c in s.slots then s.slots[c] else None
  }

  function Result(s: State, c: nat): Option<Frame> {
    if c in s.calls then Got(s.calls[c]) else None
  }

  predicate Clash(a: Option<Frame>, b: Option<Frame>) {
    a.Some? && b.Some? && a.value.seqNo == b.value.seqNo
  }

  /** Every frame held by a call carries that call's id and is older than the next to arrive. */
  predicate Fits(s: State, c: nat, f: Option<Frame>) {
    f.Some? ==> c in s.calls && f.value.id == s.calls[c].id && f.value.seqNo < s.received
  }

  /** `pending` names in-flight calls, each under its own id. */
  ghost predicate PendingSound(s: State) {
    forall id :: id in s.pending ==>
      s.pending[id] in s.calls && s.calls[s.pending[id]].id == id && s.calls[s.pending[id]].InFlight()
  }

  ghost predicate Addressed(s: State) {
    && s.slots.Keys == s.calls.Keys
    && PendingSound(s)
    && (forall c: nat :: Fits(s, c, InSlot(s, c)))
    && (forall c: nat :: Fits(s, c, Result(s, c)))
    && (s.reader.Offering? ==> Fits(s, s.reader.call, Some(s.reader.frame)))
  }

  /** No frame is held twice by two calls, by a slot and a result, or by a call and the reader. */
  predicate Apart(s: State, c: nat, c': nat) {
    && (c != c' ==> !Clash(InSlot(s, c), InSlot(s, c')) && !Clash(Result(s, c), Result(s, c')))
    && !Clash(InSlot(s, c), Result(s, c'))
    && (s.reader.Offering? ==> !Clash(InSlot(s, c), Some(s.reader.frame)) && !Clash(Result(s, c), Some(s.reader.frame)))
  }

  /** A frame sits in at most one place: the reader, one slot or one result. */
  ghost predicate Unshared(s: State) { forall c: nat, c': nat :: Apart(s, c, c') }

  lemma StepKeepsPendingSound(s: State, e: Step)
    requires PendingSound(s) && Enabled(s, e)
    ensures PendingSound(Next(s, e))
  {
  }

  lemma StepKeepsAddressed(s: State, e: Step)
    requires Addressed(s) && Enabled(s, e)
    ensures Addressed(Next(s, e))
  {
    StepKeepsPendingSound(s, e);
    StepKeepsOffer(s, e);
    hide PendingSound;
    var s' := Next(s, e);
    forall c: nat ensures Fits(s', c, InSlot(s', c)) && Fits(s', c, Result(s', c)) {
      CallKeepsFits(s, e, c);
    }
  }

  lemma StepKeepsOffer(s: State, e: Step)
    requires Addressed(s) && Enabled(s, e)
    ensures Next(s, e).slots.Keys == Next(s, e).calls.Keys
    ensures Next(s, e).reader.Offering? ==> Fits(Next(s, e), Next(s, e).reader.call, Some(Next(s, e).reader.frame))
  {
  }

  lemma CallKeepsFits(s: State, e: Step, c: nat)
    requires Enabled(s, e) && Fits(s, c, InSlot(s, c)) && Fits(s, c, Result(s, c))
    requires s.reader.Offering? ==> Fits(s, s.reader.call, Some(s.reader.frame))
    ensures Fits(Next(s, e), c, InSlot(Next(s, e), c)) && Fits(Next(s, e), c, Result(Next(s, e), c))
  {
  }

  lemma StepKeepsApart(s: State, e: Step, c: nat, c': nat)
    requires Addressed(s) && Enabled(s, e) && Apart(s, c, c') && Apart(s, c', c) && Apart(s, c, c) && Apart(s, c', c')
    ensures Apart(Next(s, e), c, c')
  {
    FramesMove(s, e);
    assert Fits(s, c, InSlot(s, c)) && Fits(s, c, Result(s, c)) && Fits(s, c', InSlot(s, c')) && Fits(s, c', Result(s, c'));
    hide Next, Enabled, Addressed, InSlot, Result;
  }

  lemma StepKeepsUnshared(s: State, e: Step)
    requires Addressed(s) && Unshared(s) && Enabled(s, e)
    ensures Unshared(Next(s, e))
  {
    hide Next, Enabled, Addressed, Apart;
    forall c: nat, c': nat ensures Apart(Next(s, e), c, c') { StepKeepsApart(s, e, c, c'); }
  }

  /** A step moves at most one frame: off the socket into the reader, into a slot, or out of a slot. */
  lemma FramesMove(s: State, e: Step)
    requires Addressed(s) && Enabled(s, e)
    ensures var s' := Next(s, e);
      && (forall c: nat :: InSlot(s', c) == if e == TakeFrame(c) then None
            else if e.Offer? && c == s.reader.call && c in s.slots && s.slots[c].None? then Some(s.reader.frame)
            else InSlot(s, c))
      && (forall c: nat :: Result(s', c) == if e == TakeFrame(c) then InSlot(s, c) else Result(s, c))
      && (s'.reader.Offering? ==> !e.Offer? && (s'.reader == s.reader || (e.Receive? && s'.reader.frame.seqNo == s.received)))
      && (e.Offer? ==> s.reader.Offering?)
  {
    hide PendingSound, Fits;
    forall c: nat
      ensures InSlot(Next(s, e), c) == if e == TakeFrame(c) then None
        else if e.Offer? && c == s.reader.call && c in s.slots && s.slots[c].None? then Some(s.reader.frame)
        else InSlot(s, c)
      ensures Result(Next(s, e), c) == if e == TakeFrame(c) then InSlot(s, c) else Result(s, c)
    {
      FrameOfCallMoves(s, e, c);
    }
  }

  lemma FrameOfCallMoves(s: State, e: Step, c: nat)
    requires s.slots.Keys == s.calls.Keys && Enabled(s, e)
    ensures InSlot(Next(s, e), c) == if e == TakeFrame(c) then None
      else if e.Offer? && c == s.reader.call && c in s.slots && s.slots[c].None? then Some(s.reader.frame)
      else InSlot(s, c)
    ensures Result(Next(s, e), c) == if e == TakeFrame(c) then InSlot(s, c) else Result(s, c)
  {
  }

  lemma InitialRouted()
    ensures Addressed(INITIAL) && Unshared(INITIAL)
  {
  }

  lemma {:induction false} RunRouted(states: seq<State>, steps: seq<Step>, k: nat)
    requires Run(states, steps) && k < |states|
    ensures Addressed(states[k]) && Unshared(states[k])
  {
    hide Next, Enabled;
    if k == 0 {
      InitialRouted();
    } else {
      RunRouted(states, steps, k - 1);
      StepKeepsAddressed(states[k-1], steps[k-1]);
      StepKeepsUnshared(states[k-1], steps[k-1]);
    }
  }

  /** Whatever the ids, a call returns only a frame carrying its own request id, and no frame resolves two calls. */
  lemma RepliesAreOwnAndUnshared(states: seq<State>, steps: seq<Step>, k: nat, c: nat, c': nat)
    requires Run(states, steps) && k < |states|
    requires Result(states[k], c).Some?
    ensures Result(states[k], c).value.id == states[k].calls[c].id
    ensures c != c' && Result(states[k], c').Some? ==> Result(states[k], c').value.seqNo != Result(states[k], c).value.seqNo
  {
    RunRouted(states, steps, k);
    assert Fits(states[k], c, Result(states[k], c));
    assert Apart(states[k], c, c');
  }

  function OutcomeOf(call: Call): Option<Outcome> {
    match call.phase
    case Left(o) => Some(o)
    case Finished(o) => Some(o)
    case _ => None
  }

  /** The step gave the call this outcome. */
  predicate Explains(s: State, e: Step, c: nat, o: Outcome) {
    match o
    case Reply(f) => e == TakeFrame(c) && InSlot(s, c) == Some(f)
    case SendFailed => e == Sent(c, false)
    case TunnelClosed => e == TakeDone(c) && s.Done()
    case Cancelled => e == TakeCancel(c)
  }

  lemma OutcomeMoves(s: State, e: Step, c: nat)
    requires Enabled(s, e) && c in s.calls
    ensures c in Next(s, e).calls
    ensures var o, o' := OutcomeOf(s.calls[c]), OutcomeOf(Next(s, e).calls[c]);
      if o.Some? then o' == o
      else if e == TakeFrame(c) || e == Sent(c, false) || e == TakeDone(c) || e == TakeCancel(c) then o'.Some? && Explains(s, e, c, o'.value)
      else o'.None?
  {
  }

  /** A waiting call returns on whichever comes: a frame in its slot, `done`, or the end of its context, which may come
      at any moment; a call that still queues or writes returns on none of them. */
  lemma WaitsForAnyOf(s: State, c: nat)
    requires c in s.calls && c in s.slots
    ensures Enabled(s, TakeFrame(c)) <==> s.calls[c].phase == Waiting && s.slots[c].Some?
    ensures Enabled(s, TakeDone(c)) <==> s.calls[c].phase == Waiting && s.Done()
    ensures Enabled(s, TakeCancel(c)) <==> s.calls[c].phase == Waiting
  {
  }

  /** Over every run a call's outcome tells what happened: a reply was taken from its slot, its write failed, it saw
      `done` closed, or its context ended. */
  lemma {:induction false} OutcomesTell(states: seq<State>, steps: seq<Step>, k: nat, c: nat)
    requires Run(states, steps) && k < |states| && c in states[k].calls && OutcomeOf(states[k].calls[c]).Some?
    ensures exists j :: 0 <= j < k && Explains(states[j], steps[j], c, OutcomeOf(states[k].calls[c]).value)
  {
    var s, e := states[k-1], steps[k-1];
    if c in s.calls {
      OutcomeMoves(s, e, c);
      hide Next, Enabled, Explains;
      if OutcomeOf(s.calls[c]).Some? { OutcomesTell(states, steps, k - 1, c); }
    }
  }

  // ----- A reply reaches the call it belongs to -----

  /** Where the first reply f to call c is: offered to its empty slot, in the slot, or returned by the call. */
  predicate Carried(s: State, c: nat, f: Frame) {
    c in s.calls && c in s.slots &&
    ( || (s.reader == Offering(c, f) && s.slots[c].None? && Result(s, c).None?)
      || (s.slots[c] == Some(f) && Result(s, c).None?)
      || Result(s, c) == Some(f))
  }

  lemma StepKeepsCarried(s: State, e: Step, c: nat, f: Frame)
    requires Carried(s, c, f) && Enabled(s, e)
    ensures Carried(Next(s, e), c, f)
  {
  }

  /** Whatever happens in between, the first reply read for a pending call is never lost, overtaken or given
      to another call: from then on it is on its way to the call's slot, in the slot, or what the call
      returned. A call that returns a later reply does not exist. */
  lemma {:induction false} FirstReplyReachesItsCall(states: seq<State>, steps: seq<Step>, k: nat, j: nat, c: nat)
    requires Run(states, steps) && k < j < |states|
    requires steps[k].Receive? && !steps[k].kind.Ping? && steps[k].id in states[k].pending && states[k].pending[steps[k].id] == c
    requires InSlot(states[k], c).None? && Result(states[k], c).None?
    ensures Carried(states[j], c, Frame(states[k].received, steps[k].kind, steps[k].id))
    decreases j
  {
    if j == k + 1 {
      RunRouted(states, steps, k);
    } else {
      FirstReplyReachesItsCall(states, steps, k, j - 1, c);
      StepKeepsCarried(states[j-1], steps[j-1], c, Frame(states[k].received, steps[k].kind, steps[k].id));
    }
  }

  // ----- `pending` is exactly the in-flight calls, provided ids do not clash -----

  ghost predicate Under(s: State, c: nat, id: string) { c in s.calls && s.calls[c].InFlight() && s.calls[c].id == id }

  ghost predicate Free(s: State, id: string) { forall c :: !Under(s, c, id) }

  /** Under this id `pending` holds exactly the calls in flight: each of them, so at most one, and nothing else. */
  ghost predicate ExactFor(s: State, id: string) {
    && (forall c :: Under(s, c, id) ==> id in s.pending && s.pending[id] == c)
    && (id in s.pending ==> Under(s, s.pending[id], id))
  }

  /** A call begins under an id that is in flight. */
  ghost predicate Clashes(s: State, e: Step, id: string) { e.Begin? && e.id == id && !Free(s, id) }

  /** How one step changes who is in flight and registered under an id. */
  lemma UnderMoves(s: State, e: Step, id: string)
    requires PendingSound(s) && Enabled(s, e)
    ensures var s' := Next(s, e);
      && (forall c :: Under(s', c, id) <==> (Under(s, c, id) && e != Step.Leave(c)) || e == Begin(c, id))
      && (if e.Begin? && e.id == id then id in s'.pending && s'.pending[id] == e.c
          else if e.Leave? && Under(s, e.c, id) then id !in s'.pending
          else (id in s'.pending <==> id in s.pending) && (id in s.pending ==> s'.pending[id] == s.pending[id]))
      && (e.Leave? ==> e.c in s.calls && s.calls[e.c].InFlight())
  {
  }

  /** A step keeps `pending` exact under an id if and only if it does not begin a clashing call. */
  lemma ExactForIff(s: State, e: Step, id: string)
    requires PendingSound(s) && ExactFor(s, id) && Enabled(s, e)
    ensures ExactFor(Next(s, e), id) <==> !Clashes(s, e, id)
  {
    UnderMoves(s, e, id);
    StepKeepsPendingSound(s, e);
    FreshCall(s, e, id);
    hide Next, Enabled, Under;
    if Clashes(s, e, id) {
      var c :| Under(s, c, id);
      assert Under(Next(s, e), c, id);
    }
  }

  lemma FreshCall(s: State, e: Step, id: string)
    requires Enabled(s, e)
    ensures e.Begin? ==> !Under(s, e.c, id)
    ensures PendingSound(Next(s, e)) && id in Next(s, e).pending ==> Under(Next(s, e), Next(s, e).pending[id], id)
  {
  }

  /** Once lost, it is lost until no call under the id is in flight any more. */
  lemma InexactStays(s: State, e: Step, id: string)
    requires PendingSound(s) && !ExactFor(s, id) && Enabled(s, e) && !Free(Next(s, e), id)
    ensures !ExactFor(Next(s, e), id)
  {
    UnderMoves(s, e, id);
    FreshCall(s, e, id);
    StepKeepsPendingSound(s, e);
    SoundUnder(s, id);
    hide Next, Enabled, Under, PendingSound;
    var c :| Under(s, c, id) && !(id in s.pending && s.pending[id] == c);
    var s' := Next(s, e);
    if !Under(s', c, id) {
      var c' :| Under(s', c', id);
      assert Under(s, c', id);
    }
  }

  lemma SoundUnder(s: State, id: string)
    requires PendingSound(s)
    ensures id in s.pending ==> Under(s, s.pending[id], id)
  {
  }

  ghost predicate NoClash(states: seq<State>, steps: seq<Step>, i: nat, j: nat, id: string)
    requires i <= j <= |steps| < |states|
  {
    forall k :: i <= k < j ==> !Clashes(states[k], steps[k], id)
  }

  /** Over every run, id by id: since the last moment at which no call under the id was in flight, `pending` has
      been exact for it if and only if no call has begun under it while another was in flight. */
  lemma {:induction false} PendingExactIff(states: seq<State>, steps: seq<Step>, i: nat, j: nat, id: string)
    requires Run(states, steps) && i <= j < |states|
    requires Free(states[i], id) && forall m :: i < m <= j ==> !Free(states[m], id)
    ensures ExactFor(states[j], id) <==> NoClash(states, steps, i, j, id)
    decreases j
  {
    hide Next, Enabled, Clashes, Free;
    if i == j {
      RunRouted(states, steps, j);
      FreeIsExact(states[i], id);
    } else {
      PendingExactIff(states, steps, i, j - 1, id);
      RunRouted(states, steps, j - 1);
      assert NoClash(states, steps, i, j, id) <==> NoClash(states, steps, i, j - 1, id) && !Clashes(states[j-1], steps[j-1], id);
      hide ExactFor, Unshared, PendingSound;
      if ExactFor(states[j-1], id) {
        ExactForIff(states[j-1], steps[j-1], id);
      } else {
        assert states[j] == Next(states[j-1], steps[j-1]) && !Free(states[j], id);
        InexactStays(states[j-1], steps[j-1], id);
      }
    }
  }

  lemma FreeIsExact(s: State, id: string)
    requires PendingSound(s) && Free(s, id)
    ensures ExactFor(s, id)
  {
    SoundUnder(s, id);
  }

  ghost predicate Leads(s: State, steps: seq<Step>, s': State)
    decreases steps
  {
    if steps == [] then s == s'
    else Enabled(s, steps[0]) && Leads(Next(s, steps[0]), steps[1..], s')
  }

  lemma LeadsStep(s: State, e: Step, rest: seq<Step>, s': State)
    requires Enabled(s, e) && Leads(Next(s, e), rest, s')
    ensures Leads(s, [e] + rest, s')
  {
    assert ([e] + rest)[1..] == rest;
  }

  /** One call has sent its request. */
  function OneSent(id: string): State { State(map[id := 0], map[0 := None], map[0 := Call(id, Waiting)], Idle, None, 0) }

  /** A second call under the same id has just begun, and the reply to the first is in its slot. */
  function Misdelivered(id: string): State {
    State(map[id := 1], map[0 := None, 1 := Some(Frame(0, Response, id))], map[0 := Call(id, Waiting), 1 := Call(id, Queued)], Idle, None, 1)
  }

  lemma ReachOneSent(id: string, rest: seq<Step>, s': State) returns (steps: seq<Step>)
    requires Leads(OneSent(id), rest, s')
    ensures steps == [Begin(0, id), Lock(0), Sent(0, true)] + rest && Leads(INITIAL, steps, s')
  {
    var s1 := Next(INITIAL, Begin(0, id));
    var s2 := Next(s1, Lock(0));
    assert Next(s2, Sent(0, true)) == OneSent(id);
    steps := LeadsThree(INITIAL, Begin(0, id), s1, Lock(0), s2, Sent(0, true), OneSent(id), rest, s');
  }

  /** Then both calls are registered under the id of the second. */
  function BothBegun(id: string): State {
    State(map[id := 1], map[0 := None, 1 := None], map[0 := Call(id, Waiting), 1 := Call(id, Queued)], Idle, None, 0)
  }

  lemma SecondBegins(id: string)
    ensures Enabled(OneSent(id), Begin(1, id)) && Next(OneSent(id), Begin(1, id)) == BothBegun(id)
  {
  }

  lemma ReplyArrives(id: string)
    ensures Enabled(BothBegun(id), Receive(Response, id))
    ensures var offered := Next(BothBegun(id), Receive(Response, id));
      Enabled(offered, Offer) && Next(offered, Offer) == Misdelivered(id)
  {
  }

  lemma ReachMisdelivered(id: string, rest: seq<Step>, s': State) returns (steps: seq<Step>)
    requires Leads(Misdelivered(id), rest, s')
    ensures steps == [Begin(1, id), Receive(Response, id), Offer] + rest && Leads(OneSent(id), steps, s')
  {
    hide Next, Enabled, OneSent, BothBegun, Misdelivered;
    SecondBegins(id);
    ReplyArrives(id);
    var offered := Next(BothBegun(id), Receive(Response, id));
    steps := LeadsThree(OneSent(id), Begin(1, id), BothBegun(id), Receive(Response, id), offered, Offer, Misdelivered(id), rest, s');
  }

  function BothSent(id: string): State { Misdelivered(id).(calls := map[0 := Call(id, Waiting), 1 := Call(id, Waiting)]) }

  lemma SecondSends(id: string)
    ensures Enabled(Misdelivered(id), Lock(1))
    ensures var locked := Next(Misdelivered(id), Lock(1)); Enabled(locked, Sent(1, true)) && Next(locked, Sent(1, true)) == BothSent(id)
  {
  }

  lemma SecondTakes(id: string)
    ensures Enabled(BothSent(id), TakeFrame(1))
    ensures var s := Next(BothSent(id), TakeFrame(1)); Result(s, 1) == Some(Frame(0, Response, id)) && Result(s, 0).None?
  {
  }

  /** With a clash, the reply to the request already sent resolves the later call. */
  lemma ClashCrossDelivers(id: string) returns (s: State, steps: seq<Step>)
    ensures Leads(INITIAL, steps, s)
    ensures steps == [Begin(0, id), Lock(0), Sent(0, true), Begin(1, id), Receive(Response, id), Offer, Lock(1), Sent(1, true), TakeFrame(1)]
    ensures Result(s, 1) == Some(Frame(0, Response, id)) && Result(s, 0).None?
  {
    SecondSends(id);
    SecondTakes(id);
    NoSteps(Next(BothSent(id), TakeFrame(1)));
    hide Next, Enabled, Leads, OneSent, Misdelivered, BothSent, Result;
    s := Next(BothSent(id), TakeFrame(1));
    var last := LeadsThree(Misdelivered(id), Lock(1), Next(Misdelivered(id), Lock(1)), Sent(1, true), BothSent(id), TakeFrame(1), s, [], s);
    var tail := ReachMisdelivered(id, last, s);
    steps := ReachOneSent(id, tail, s);
  }

  lemma NoSteps(s: State)
    ensures Leads(s, [], s)
  {
  }

  lemma LeadsThree(a: State, e: Step, b: State, e': Step, c: State, e'': Step, d: State, rest: seq<Step>, s': State) returns (steps: seq<Step>)
    requires Enabled(a, e) && Next(a, e) == b && Enabled(b, e') && Next(b, e') == c && Enabled(c, e'') && Next(c, e'') == d
    requires Leads(d, rest, s')
    ensures steps == [e, e', e''] + rest && Leads(a, steps, s')
  {
    hide Next, Enabled;
    LeadsStep(c, e'', rest, s');
    LeadsStep(b, e', [e''] + rest, s');
    LeadsStep(a, e, [e'] + ([e''] + rest), s');
    steps := [e] + ([e'] + ([e''] + rest));
  }

  /** With a clash, the first call's exit unregisters the second one. */
  lemma ClashUnregisters(id: string) returns (states: seq<State>, steps: seq<Step>)
    ensures Run(states, steps) && |states| == 6
    ensures steps[0] == Begin(0, id) && steps[1] == Begin(1, id)
    ensures 1 in states[5].calls && states[5].calls[1] == Call(id, Queued) && id !in states[5].pending
  {
    steps := [Begin(0, id), Begin(1, id), Lock(0), Sent(0, false), Leave(0)];
    var s1 := Next(INITIAL, steps[0]);
    var s2 := Next(s1, steps[1]);
    var s3 := Next(s2, steps[2]);
    var s4 := Next(s3, steps[3]);
    states := [INITIAL, s1, s2, s3, s4, Next(s4, steps[4])];
  }

  // ----- When the read loop cannot move -----

  predicate ReaderStep(e: Step) { e.Receive? || e.Offer? || e.LockForPong? || e.SocketError? }

  /** The read loop has not returned and has no step of its own: it can neither take a frame or an error off
      the socket, nor offer a frame, nor start its pong. */
  ghost predicate ReaderBlocked(s: State) {
    !s.Done() && forall e :: ReaderStep(e) ==> !Enabled(s, e)
  }

  /** The write mutex is held by exactly the writes that have not returned. */
  ghost predicate MutexOk(s: State) {
    && (s.writer == Some(ByReader) ==> s.reader.Ponging?)
    && (forall c :: s.writer == Some(ByCall(c)) <==> c in s.calls && s.calls[c].phase == Writing)
  }

  lemma StepKeepsMutexOk(s: State, e: Step)
    requires MutexOk(s) && Enabled(s, e)
    ensures MutexOk(Next(s, e))
  {
  }

  lemma {:induction false} RunMutexOk(states: seq<State>, steps: seq<Step>, k: nat)
    requires Run(states, steps) && k < |states|
    ensures MutexOk(states[k])
  {
    if k > 0 {
      RunMutexOk(states, steps, k - 1);
      StepKeepsMutexOk(states[k-1], steps[k-1]);
    }
  }

  predicate CallWrites(s: State, c: nat) { c in s.calls && s.calls[c].phase == Writing }

  lemma BlockedBy(s: State)
    requires MutexOk(s)
    ensures ReaderBlocked(s) <==> s.reader.Ponging? && s.writer.Some?
  {
    if ReaderBlocked(s) {
      assert !Enabled(s, SocketError) && !Enabled(s, Offer) && !Enabled(s, LockForPong);
    }
  }

  /** In a reachable state the read loop is blocked if and only if it owes a pong and either its own write
      or that of some call has not returned. It never waits for the receiver of a reply. */
  lemma ReaderBlockedIff(states: seq<State>, steps: seq<Step>, k: nat)
    requires Run(states, steps) && k < |states|
    ensures ReaderBlocked(states[k]) <==>
      states[k].reader.Ponging? && (states[k].writer == Some(ByReader) || exists c :: CallWrites(states[k], c))
  {
    RunMutexOk(states, steps, k);
    BlockedBy(states[k]);
    var s := states[k];
    if s.writer.Some? && s.writer.value.ByCall? { assert CallWrites(s, s.writer.value.c); }
  }

  /** A write returns. */
  predicate Releases(e: Step) { e.Sent? || e.PongSent? }

  ghost predicate BlockedThroughout(states: seq<State>, i: nat, j: nat)
    requires i <= j < |states|
  {
    forall m :: i <= m <= j ==> ReaderBlocked(states[m])
  }

  ghost predicate NoWriteReturns(steps: seq<Step>, i: nat, j: nat)
    requires i <= j <= |steps|
  {
    forall k :: i <= k < j ==> !Releases(steps[k])
  }

  /** While no write returns, a blocked read loop stays blocked and takes no further frame, so no reply
      arrives, whatever the calls do; the first write to return frees it. */
  lemma {:induction false} BlockedUntilAWriteReturns(states: seq<State>, steps: seq<Step>, i: nat, j: nat)
    requires Run(states, steps) && i <= j < |states| && ReaderBlocked(states[i])
    ensures BlockedThroughout(states, i, j) <==> NoWriteReturns(steps, i, j)
    ensures NoWriteReturns(steps, i, j) ==>
      states[j].reader == states[i].reader && states[j].writer == states[i].writer && states[j].received == states[i].received
    decreases j
  {
    hide ReaderBlocked, Releases, Enabled, Next;
    if i < j {
      BlockedUntilAWriteReturns(states, steps, i, j - 1);
      assert BlockedThroughout(states, i, j) <==> BlockedThroughout(states, i, j - 1) && ReaderBlocked(states[j]);
      assert NoWriteReturns(steps, i, j) <==> NoWriteReturns(steps, i, j - 1) && !Releases(steps[j-1]);
      if BlockedThroughout(states, i, j - 1) {
        RunMutexOk(states, steps, j - 1);
        BlockedStep(states[j-1], steps[j-1]);
      }
    }
  }

  lemma BlockedStep(s: State, e: Step)
    requires MutexOk(s) && ReaderBlocked(s) && Enabled(s, e)
    ensures var s' := Next(s, e);
      && (ReaderBlocked(s') <==> !Releases(e))
      && (!Releases(e) ==> s'.reader == s.reader && s'.writer == s.writer && s'.received == s.received)
  {
    StepKeepsMutexOk(s, e);
    BlockedBy(s);
    BlockedBy(Next(s, e));
    hide ReaderBlocked, MutexOk;
  }

  /** It happens: a ping read while a call's write is stuck. */
  lemma PingBehindAWrite(id: string) returns (states: seq<State>, steps: seq<Step>)
    ensures Run(states, steps) && steps == [Begin(0, id), Lock(0), Receive(Ping, "")]
    ensures ReaderBlocked(states[3]) && CallWrites(states[3], 0)
  {
    steps := [Begin(0, id), Lock(0), Receive(Ping, "")];
    var s1 := Next(INITIAL, steps[0]);
    var s2 := Next(s1, steps[1]);
    states := [INITIAL, s1, s2, Next(s2, steps[2])];
    RunMutexOk(states, steps, 3);
    BlockedBy(states[3]);
  }

  /** Pings read and pongs whose write has returned. */
  function Pings(steps: seq<Step>): nat {
    if steps == [] then 0
    else Pings(steps[..|steps|-1]) + if steps[|steps|-1].Receive? && steps[|steps|-1].kind.Ping? then 1 else 0
  }

  function Pongs(steps: seq<Step>): nat {
    if steps == [] then 0 else Pongs(steps[..|steps|-1]) + if steps[|steps|-1].PongSent? then 1 else 0
  }

  /** Over every run each ping is answered by one pong, at most the last one being still owed; `done` is closed if and
      only if the socket has failed. */
  lemma {:induction false} OnePongPerPing(states: seq<State>, steps: seq<Step>, k: nat)
    requires Run(states, steps) && k < |states|
    ensures Pings(steps[..k]) == Pongs(steps[..k]) + if states[k].reader.Ponging? then 1 else 0
    ensures states[k].Done() <==> exists j :: 0 <= j < k && steps[j].SocketError?
  {
    if k > 0 {
      OnePongPerPing(states, steps, k - 1);
      assert steps[..k][..k-1] == steps[..k-1] && steps[..k][k-1] == steps[k-1];
      ReaderMoves(states[k-1], steps[k-1]);
      hide Next, Enabled;
    }
  }

  lemma ReaderMoves(s: State, e: Step)
    requires Enabled(s, e)
    ensures var s' := Next(s, e);
      && (s'.Done() <==> s.Done() || e.SocketError?)
      && (if e.PongSent? then s.reader.Ponging? && s'.reader.Idle?
          else if e.Receive? then s.reader.Idle? && (s'.reader.Ponging? <==> e.kind.Ping?)
          else s'.reader.Ponging? <==> s.reader.Ponging?)
  {
  }

  // ----- Once `done` is closed -----

  /** Steps a call still has to take at most. */
  function WorkOf(call: Call): int {
    match call.phase
    case Queued => 4
    case Writing => 3
    case Waiting => 2
    case Left(_) => 1
    case Finished(_) => 0
  }

  function WorkByCall(s: State): map<nat, int> { map c | c in s.calls :: WorkOf(s.calls[c]) }

  ghost function Work(s: State): int { Sum(WorkByCall(s)) }

  /** The call a step belongs to moves on; the others stay. */
  lemma CallMoves(s: State, e: Step) returns (c: nat)
    requires s.Done() && Enabled(s, e) && !e.Begin?
    ensures Next(s, e).Done() && Next(s, e).calls.Keys == s.calls.Keys && c in s.calls
    ensures WorkOf(Next(s, e).calls[c]) < WorkOf(s.calls[c])
    ensures forall b :: b in s.calls && b != c ==> Next(s, e).calls[b] == s.calls[b]
  {
    c := e.c;
  }

  lemma StepDoesWork(s: State, e: Step)
    requires s.Done() && Enabled(s, e) && !e.Begin?
    ensures Next(s, e).Done() && Work(Next(s, e)) < Work(s)
  {
    var c := CallMoves(s, e);
    hide Next, Enabled, WorkOf;
    var s' := Next(s, e);
    var m, m' := WorkByCall(s), WorkByCall(s');
    SumWithout(m, c);
    SumWithout(m', c);
    assert m - {c} == m' - {c};
  }

  /** While a call is in flight some call can move, given that a write on a dead socket returns. */
  lemma SomeoneMoves(s: State, c: nat) returns (e: Step)
    requires s.Done() && MutexOk(s) && c in s.calls && s.calls[c].InFlight()
    ensures Enabled(s, e) && !e.Begin?
  {
    match s.calls[c].phase {
      case Queued => e := if s.writer.None? then Lock(c) else Sent(s.writer.value.c, false);
      case Writing => e := Sent(c, false);
      case Waiting => e := TakeDone(c);
      case Left(_) => e := Leave(c);
    }
  }

  /** Once `done` is closed, every run without new calls is short, and where it can go no further every
      call has finished and `pending` is empty: no call waits for ever, not even one that waits for the
      write mutex, as long as the writes return. */
  lemma {:induction false} DoneDrains(states: seq<State>, steps: seq<Step>, i: nat, j: nat)
    requires Run(states, steps) && i <= j < |states| && states[i].Done()
    requires forall k :: i <= k < j ==> !steps[k].Begin?
    ensures states[j].Done() && j - i + Work(states[j]) <= Work(states[i])
    ensures (forall e :: Enabled(states[j], e) ==> e.Begin?) <==> (forall c :: c in states[j].calls ==> states[j].calls[c].phase.Finished?)
    ensures (forall c :: c in states[j].calls ==> states[j].calls[c].phase.Finished?) ==> states[j].pending == map[]
    decreases j
  {
    if i < j {
      DoneDrains(states, steps, i, j - 1);
      StepDoesWork(states[j-1], steps[j-1]);
    }
    RunRouted(states, steps, j);
    RunMutexOk(states, steps, j);
    DrainedIff(states[j]);
  }

  lemma DrainedIff(s: State)
    requires s.Done() && MutexOk(s) && Addressed(s)
    ensures (forall e :: Enabled(s, e) ==> e.Begin?) <==> (forall c :: c in s.calls ==> s.calls[c].phase.Finished?)
    ensures (forall c :: c in s.calls ==> s.calls[c].phase.Finished?) ==> s.pending == map[]
  {
    if c :| c in s.calls && s.calls[c].InFlight() {
      var e := SomeoneMoves(s, c);
    }
    if s.pending != map[] {
      var id :| id in s.pending;
      assert s.calls[s.pending[id]].InFlight();
    }
  }

  /** Every call still in flight can run to its end, leaving `pending` empty. */
  lemma {:induction false} EveryoneCanFinish(s: State) returns (steps: seq<Step>, s': State)
    requires s.Done() && MutexOk(s) && Addressed(s)
    ensures Leads(s, steps, s') && s'.pending == map[] && |steps| <= Work(s)
    ensures forall c :: c in s'.calls ==> s'.calls[c].phase.Finished?
    decreases Work(s)
  {
    hide Next, Enabled, Addressed, MutexOk;
    WorkCounts(s);
    DrainedIff(s);
    if c :| c in s.calls && s.calls[c].InFlight() {
      var e := SomeoneMoves(s, c);
      StepDoesWork(s, e);
      StepKeepsAddressed(s, e);
      StepKeepsMutexOk(s, e);
      WorkCounts(Next(s, e));
      var rest;
      rest, s' := EveryoneCanFinish(Next(s, e));
      steps := [e] + rest;
      LeadsStep(s, e, rest, s');
    } else {
      steps, s' := [], s;
    }
  }

  lemma WorkCounts(s: State)
    ensures Work(s) >= 0
  {
    SumOfNonNegatives(WorkByCall(s));
  }

  // ----- The tunnel object -----

  class WsAgentTunnel {
    var pending: map<string, nat>
    var slots: map<nat, Option<Frame>>
    var calls: map<nat, Call>
    var reader: Reader
    var writer: Option<Holder>
    var received: nat

    ghost function View(): State
      reads this
    {
      State(pending, slots, calls, reader, writer, received)
    }

    constructor ()
      ensures View() == INITIAL
    {
      pending, slots, calls, reader, writer, received := map[], map[], map[], Idle, None, 0;
    }

    /** request: make the channel and register it. */
    method BeginRequest(c: nat, id: string)
      requires Enabled(View(), Begin(c, id))
      modifies this`pending, this`slots, this`calls
      ensures View() == Next(old(View()), Begin(c, id))
    {
      slots := slots[c := None];
      calls := calls[c := Call(id, Queued)];
      pending := pending[id := c];
    }

    /** send, called by a request: up to holding the write mutex. */
    method LockToSend(c: nat)
      requires Enabled(View(), Lock(c))
      modifies this`writer, this`calls
      ensures View() == Next(old(View()), Lock(c))
    {
      writer := Some(ByCall(c));
      calls := calls[c := calls[c].(phase := Writing)];
    }

    /** send, called by a request: the write returns and the mutex is released. */
    method FinishSend(c: nat, ok: bool)
      requires Enabled(View(), Sent(c, ok))
      modifies this`writer, this`calls
      ensures View() == Next(old(View()), Sent(c, ok))
    {
      writer := None;
      calls := calls[c := calls[c].(phase := if ok then Waiting else Left(SendFailed))];
    }

    /** request: the select over the channel, `done` and the context; `pick` is the runtime's choice. */
    method Select(c: nat, pick: Step) returns (outcome: Outcome)
      requires pick in {TakeFrame(c), TakeDone(c), TakeCancel(c)} && Enabled(View(), pick)
      modifies this`slots, this`calls
      ensures View() == Next(old(View()), pick) && calls[c].phase == Left(outcome)
      ensures outcome == if pick.TakeDone? then TunnelClosed else if pick.TakeCancel? then Cancelled else Reply(old(slots)[c].value)
    {
      if pick.TakeFrame? {
        outcome := Reply(slots[c].value);
        slots := slots[c := None];
      } else {
        outcome := if pick.TakeDone? then TunnelClosed else Cancelled;
      }
      calls := calls[c := calls[c].(phase := Left(outcome))];
    }

    /** request: the deferred delete. */
    method EndRequest(c: nat)
      requires Enabled(View(), Leave(c))
      modifies this`pending, this`calls
      ensures View() == Next(old(View()), Leave(c))
    {
      pending := pending - {calls[c].id};
      calls := calls[c := calls[c].(phase := Finished(calls[c].phase.outcome))];
    }

    /** readLoop: one frame off the socket and its lookup; a ping owes a pong. */
    method ReceiveFrame(kind: Kind, id: string)
      requires Enabled(View(), Receive(kind, id))
      modifies this`reader, this`received
      ensures View() == Next(old(View()), Receive(kind, id))
    {
      var f := Frame(received, kind, id);
      received := received + 1;
      match kind {
        case Ping => reader := Ponging;
        case _ =>
          if id in pending { reader := Offering(pending[id], f); }
      }
    }

    /** readLoop: the non-blocking send on the channel; a full slot drops the frame. */
    method OfferFrame()
      requires Enabled(View(), Offer)
      modifies this`reader, this`slots
      ensures View() == Next(old(View()), Offer)
    {
      if reader.call in slots && slots[reader.call].None? {
        slots := slots[reader.call := Some(reader.frame)];
      }
      reader := Idle;
    }

    /** send, called by the read loop: up to holding the write mutex. */
    method LockToPong()
      requires Enabled(View(), LockForPong)
      modifies this`writer
      ensures View() == Next(old(View()), LockForPong)
    {
      writer := Some(ByReader);
    }

    /** send, called by the read loop: the write returns, its error is ignored, and the loop goes on. */
    method FinishPong(ok: bool)
      requires Enabled(View(), PongSent(ok))
      modifies this`writer, this`reader
      ensures View() == Next(old(View()), PongSent(ok))
    {
      writer := None;
      reader := Idle;
    }
  }
}
