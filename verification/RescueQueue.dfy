/** backend/convex/agentRescue.ts: the rescue command table. Mutations are serialised transactions; a row's
    id is its insertion index, and a mutation that throws changes nothing. */
module RescueQueue {
  import opened Wrappers

  const TTL_MS: nat := 300_000

  datatype Status = Pending | Claimed | Completed | Failed | Expired

  datatype Row = Row(deviceID: string, owner: string, command: string, status: Status, createdAt: nat, expiresAt: nat)

  /** `owners` is the device registry; `claims` logs what each successful claim returned. */
  datatype Claim = Claim(id: nat, caller: string, now: nat)

  datatype State = State(rows: seq<Row>, owners: map<string, string>, claims: seq<Claim>)

  datatype Step =
    | Queue(caller: string, deviceID: string, command: string, now: nat)
    | ClaimNext(caller: string, deviceID: string, now: nat)
    | Report(caller: string, id: nat, ok: bool, now: nat)
    | SetOwner(deviceID: string, owner: string, now: nat)   // the registry, outside this file

  predicate Owns(s: State, caller: string, d: string) { d in s.owners && s.owners[d] == caller }

  predicate Live(r: Row, d: string, now: nat) { r.deviceID == d && r.status == Pending && r.expiresAt > now }

  /** The first live pending row for a device (and, for deduplication, a command) from index i on. */
  function FirstLive(rows: seq<Row>, d: string, command: Option<string>, now: nat, i: nat): (r: Option<nat>)
    requires i <= |rows|
    ensures r.Some? ==> i <= r.value < |rows|
    decreases |rows| - i
  {
    if i == |rows| then None
    else if Live(rows[i], d, now) && (command.None? || rows[i].command == command.value) then Some(i)
    else FirstLive(rows, d, command, now, i + 1)
  }

  /** The claim loop: stale pending rows met on the way expire, the first live one is claimed. */
  function Sweep(rows: seq<Row>, d: string, now: nat, i: nat): (r: seq<Row>)
    requires i <= |rows|
    ensures |r| == |rows|
    decreases |rows| - i
  {
    if i == |rows| then rows
    else if rows[i].deviceID != d || rows[i].status != Pending then Sweep(rows, d, now, i + 1)
    else if rows[i].expiresAt <= now then Sweep(rows[i := rows[i].(status := Expired)], d, now, i + 1)
    else rows[i := rows[i].(status := Claimed)]
  }

  function Next(s: State, e: Step): State {
    match e
    case Queue(caller, d, command, now) =>
      if !Owns(s, caller, d) || FirstLive(s.rows, d, Some(command), now, 0).Some? then s
      else s.(rows := s.rows + [Row(d, caller, command, Pending, now, now + TTL_MS)])
    case ClaimNext(caller, d, now) =>
      if !Owns(s, caller, d) then s
      else
        var id := FirstLive(s.rows, d, None, now, 0);
        s.(rows := Sweep(s.rows, d, now, 0), claims := if id.Some? then s.claims + [Claim(id.value, caller, now)] else s.claims)
    case Report(caller, id, ok, _) =>
      if id >= |s.rows| || s.rows[id].owner != caller || s.rows[id].status != Claimed then s
      else s.(rows := s.rows[id := s.rows[id].(status := if ok then Completed else Failed)])
    case SetOwner(d, owner, _) => s.(owners := s.owners[d := owner])
  }

  function After(steps: seq<Step>): State {
    if steps == [] then State([], map[], []) else Next(After(steps[..|steps|-1]), steps[|steps|-1])
  }

  ghost predicate Monotone(steps: seq<Step>) {
    forall i, j :: 0 <= i <= j < |steps| ==> steps[i].now <= steps[j].now
  }

  // ----- One step -----

  predicate Moves(before: Status, after: Status) {
    || before == after
    || (before == Pending && (after == Expired || after == Claimed))
    || (before == Claimed && (after == Completed || after == Failed))
  }

  lemma {:induction false} FirstLiveIsFirst(rows: seq<Row>, d: string, command: Option<string>, now: nat, i: nat)
    requires i <= |rows|
    ensures var id := FirstLive(rows, d, command, now, i);
      && (id.Some? ==> Live(rows[id.value], d, now) && (command.None? || rows[id.value].command == command.value))
      && (forall j :: i <= j < |rows| && (id.Some? ==> j < id.value) ==>
            !(Live(rows[j], d, now) && (command.None? || rows[j].command == command.value)))
    decreases |rows| - i
  {
    if i < |rows| { FirstLiveIsFirst(rows, d, command, now, i + 1); }
  }

  lemma {:induction false} FirstLiveAgain(rows: seq<Row>, rows': seq<Row>, d: string, now: nat, i: nat)
    requires |rows| == |rows'| && i <= |rows| && rows[i..] == rows'[i..]
    ensures FirstLive(rows, d, None, now, i) == FirstLive(rows', d, None, now, i)
    decreases |rows| - i
  {
    if i < |rows| {
      assert rows[i] == rows[i..][0] && rows'[i] == rows'[i..][0];
      assert rows[i+1..] == rows[i..][1..] && rows'[i+1..] == rows'[i..][1..];
      FirstLiveAgain(rows, rows', d, now, i + 1);
    }
  }

  /** The claim loop, row by row: everything stale before the first live row expires, that row is claimed,
      nothing after it is touched. */
  lemma {:induction false} SweepRowByRow(rows: seq<Row>, d: string, now: nat, i: nat, j: nat)
    requires i <= |rows| && j < |rows|
    ensures var id := FirstLive(rows, d, None, now, i);
      Sweep(rows, d, now, i)[j] ==
        if id == Some(j) then rows[j].(status := Claimed)
        else if i <= j && (id.Some? ==> j < id.value) && rows[j].deviceID == d && rows[j].status == Pending then rows[j].(status := Expired)
        else rows[j]
    decreases |rows| - i
  {
    if i < |rows| && !Live(rows[i], d, now) {
      var rows' := if rows[i].deviceID != d || rows[i].status != Pending then rows else rows[i := rows[i].(status := Expired)];
      SweepRowByRow(rows', d, now, i + 1, j);
      FirstLiveAgain(rows, rows', d, now, i + 1);
    }
  }

  /** Rows are never lost and never change but in status, which only moves forward: pending to expired or
      claimed, claimed to completed or failed; a row expires only once its time has come. */
  lemma StatusOnlyMovesForward(s: State, e: Step, id: nat)
    requires id < |s.rows|
    ensures var s' := Next(s, e);
      && id < |s'.rows| && s'.rows[id] == s.rows[id].(status := s'.rows[id].status)
      && Moves(s.rows[id].status, s'.rows[id].status)
      && (s'.rows[id].status == Expired && s.rows[id].status != Expired ==> s.rows[id].expiresAt <= e.now)
  {
    if e.ClaimNext? && Owns(s, e.caller, e.deviceID) {
      SweepRowByRow(s.rows, e.deviceID, e.now, 0, id);
      FirstLiveIsFirst(s.rows, e.deviceID, None, e.now, 0);
    }
  }

  /** A claim returns the oldest live row of its device, strictly before that row's expiry, and returns
      nothing only when there is none; it is the step that turns that row from pending to claimed. */
  lemma ClaimTakesOldestLive(s: State, caller: string, d: string, now: nat)
    requires Owns(s, caller, d)
    ensures var s' := Next(s, ClaimNext(caller, d, now));
      if s'.claims == s.claims then forall j :: 0 <= j < |s.rows| ==> !Live(s.rows[j], d, now)
      else
        && |s'.claims| == |s.claims| + 1 && s'.claims[..|s.claims|] == s.claims
        && var c := s'.claims[|s.claims|];
           && c.caller == caller && c.now == now && c.id < |s.rows|
           && s.rows[c.id].deviceID == d && s.rows[c.id].status == Pending && now < s.rows[c.id].expiresAt
           && s'.rows[c.id].status == Claimed
           && (forall j :: 0 <= j < c.id ==> !Live(s.rows[j], d, now))
  {
    FirstLiveIsFirst(s.rows, d, None, now, 0);
    var id := FirstLive(s.rows, d, None, now, 0);
    if id.Some? { SweepRowByRow(s.rows, d, now, 0, id.value); }
  }

  /** A report ends exactly the caller's own claimed row, as completed or failed, and touches no other. */
  lemma ReportEnds(s: State, caller: string, id: nat, ok: bool, now: nat, j: nat)
    requires j < |s.rows|
    ensures var s' := Next(s, Report(caller, id, ok, now));
      && |s'.rows| == |s.rows|
      && s'.rows[j] == (if j == id && s.rows[j].owner == caller && s.rows[j].status == Claimed
                        then s.rows[j].(status := if ok then Completed else Failed) else s.rows[j])
  {
  }

  // ----- Whole runs -----

  ghost predicate ClaimsAreSpent(s: State) {
    && (forall i :: 0 <= i < |s.claims| ==>
          s.claims[i].id < |s.rows| && s.rows[s.claims[i].id].status !in {Pending, Expired} && s.claims[i].now < s.rows[s.claims[i].id].expiresAt)
    && (forall i, j :: 0 <= i < j < |s.claims| ==> s.claims[i].id != s.claims[j].id)
  }

  /** Over every run each command is returned by at most one claim, strictly before its expiry. */
  lemma {:induction false} ClaimedAtMostOnce(steps: seq<Step>)
    ensures ClaimsAreSpent(After(steps))
  {
    if steps != [] {
      var s, e := After(steps[..|steps|-1]), steps[|steps|-1];
      ClaimedAtMostOnce(steps[..|steps|-1]);
      if e.ClaimNext? && Owns(s, e.caller, e.deviceID) { ClaimTakesOldestLive(s, e.caller, e.deviceID, e.now); }
      forall id: nat | id < |s.rows| ensures id < |Next(s, e).rows| && Moves(s.rows[id].status, Next(s, e).rows[id].status)
        && Next(s, e).rows[id].expiresAt == s.rows[id].expiresAt {
        StatusOnlyMovesForward(s, e, id);
      }
    }
  }

  predicate BothPending(r: Row, q: Row) {
    r.status == q.status == Pending && r.deviceID == q.deviceID && r.command == q.command
  }

  /** A later pending row of the same device and command was queued only after the earlier one had expired. */
  ghost predicate QueuedApart(s: State) {
    && (forall i :: 0 <= i < |s.rows| ==> s.rows[i].expiresAt == s.rows[i].createdAt + TTL_MS)
    && (forall i, j :: 0 <= i < j < |s.rows| && BothPending(s.rows[i], s.rows[j]) ==> s.rows[i].expiresAt <= s.rows[j].createdAt)
  }

  ghost predicate CreatedBy(s: State, now: nat) {
    forall i :: 0 <= i < |s.rows| ==> s.rows[i].createdAt <= now
  }

  lemma {:induction false} AlwaysQueuedApart(steps: seq<Step>, now: nat)
    requires Monotone(steps) && (steps != [] ==> steps[|steps|-1].now <= now)
    ensures QueuedApart(After(steps)) && CreatedBy(After(steps), now)
  {
    if steps != [] {
      var s, e := After(steps[..|steps|-1]), steps[|steps|-1];
      AlwaysQueuedApart(steps[..|steps|-1], e.now);
      StepKeepsApart(s, e);
    }
  }

  lemma OnlyQueueAdds(s: State, e: Step)
    ensures var rows, rows' := s.rows, Next(s, e).rows;
      || |rows'| == |rows|
      || (&& e.Queue? && rows' == rows + [Row(e.deviceID, e.caller, e.command, Pending, e.now, e.now + TTL_MS)]
          && forall j :: 0 <= j < |rows| ==> !(Live(rows[j], e.deviceID, e.now) && rows[j].command == e.command))
  {
    if e.Queue? { FirstLiveIsFirst(s.rows, e.deviceID, Some(e.command), e.now, 0); }
  }

  lemma StepKeepsApart(s: State, e: Step)
    requires QueuedApart(s) && CreatedBy(s, e.now)
    ensures QueuedApart(Next(s, e)) && CreatedBy(Next(s, e), e.now)
  {
    hide Next;
    var rows' := Next(s, e).rows;
    OnlyQueueAdds(s, e);
    forall id: nat | id < |s.rows|
      ensures id < |rows'| && Moves(s.rows[id].status, rows'[id].status) && rows'[id] == s.rows[id].(status := rows'[id].status)
    {
      StatusOnlyMovesForward(s, e, id);
    }
  }

  /** With a clock that never goes back, at most one unexpired pending row exists per device and command. */
  lemma OneLivePerCommand(steps: seq<Step>, now: nat, i: nat, j: nat, d: string)
    requires Monotone(steps) && (steps != [] ==> steps[|steps|-1].now <= now)
    requires i < |After(steps).rows| && j < |After(steps).rows|
    requires Live(After(steps).rows[i], d, now) && Live(After(steps).rows[j], d, now)
    requires After(steps).rows[i].command == After(steps).rows[j].command
    ensures i == j
  {
    AlwaysQueuedApart(steps, now);
  }

  // ----- Whose command is it? -----

  /** The registry's owner of d after the first k steps. */
  function OwnerAt(steps: seq<Step>, k: nat, d: string): Option<string>
    requires k <= |steps|
  {
    var owners := After(steps[..k]).owners;
    if d in owners then Some(owners[d]) else None
  }

  /** Step q queued the row with this id. */
  ghost predicate QueuedAt(steps: seq<Step>, q: nat, id: nat) {
    q < |steps| && steps[q].Queue? && |After(steps[..q]).rows| == id && |After(steps[..q+1]).rows| == id + 1
  }

  lemma QueueAdds(s: State, e: Step)
    ensures |Next(s, e).rows| > |s.rows| ==>
      && e.Queue? && Owns(s, e.caller, e.deviceID)
      && Next(s, e).rows == s.rows + [Row(e.deviceID, e.caller, e.command, Pending, e.now, e.now + TTL_MS)]
    ensures |s.rows| <= |Next(s, e).rows| <= |s.rows| + 1
  {
  }

  /** Every row was queued by some step of the run, by the device's owner of that moment, and keeps what it was
      given but for its status. */
  lemma {:induction false} RowWasQueued(steps: seq<Step>, id: nat) returns (q: nat)
    requires id < |After(steps).rows|
    ensures QueuedAt(steps, q, id)
    ensures var r := After(steps).rows[id];
      && r.deviceID == steps[q].deviceID && r.createdAt == steps[q].now && r.expiresAt == steps[q].now + 300_000
      && OwnerAt(steps, q, r.deviceID) == Some(r.owner)
  {
    var before, e := steps[..|steps|-1], steps[|steps|-1];
    var s := After(before);
    QueueAdds(s, e);
    assert steps[..|steps|] == steps;
    if id < |s.rows| {
      q := RowWasQueued(before, id);
      assert before[..q] == steps[..q] && before[..q+1] == steps[..q+1];
      StatusOnlyMovesForward(s, e, id);
      hide Next, After;
    } else {
      q := |steps| - 1;
    }
  }

  /** The row a claim returns, if it returns one. */
  function Returned(s: State, caller: string, d: string, now: nat): Option<nat> {
    var s' := Next(s, ClaimNext(caller, d, now));
    if |s'.claims| > |s.claims| then Some(s'.claims[|s'.claims|-1].id) else None
  }

  lemma ReturnedIsLive(s: State, caller: string, d: string, now: nat)
    requires Returned(s, caller, d, now).Some?
    ensures var id := Returned(s, caller, d, now).value;
      Owns(s, caller, d) && id < |s.rows| && Live(s.rows[id], d, now)
  {
    hide Next;
    if Owns(s, caller, d) { ClaimTakesOldestLive(s, caller, d, now); } else { RefusedClaim(s, caller, d, now); }
  }

  lemma RefusedClaim(s: State, caller: string, d: string, now: nat)
    requires !Owns(s, caller, d)
    ensures Next(s, ClaimNext(caller, d, now)) == s
  {
  }

  /** The claim never compares the command's owner with the caller. In every run the command it hands over is
      foreign if and only if the device had another owner when it was queued than it has now. */
  lemma ForeignClaimIff(steps: seq<Step>, caller: string, d: string, now: nat) returns (q: nat)
    requires Returned(After(steps), caller, d, now).Some?
    ensures var id := Returned(After(steps), caller, d, now).value;
      && id < |After(steps).rows| && QueuedAt(steps, q, id)
      && (After(steps).rows[id].owner != caller <==> OwnerAt(steps, q, d) != OwnerAt(steps, |steps|, d))
  {
    hide Next;
    var s := After(steps);
    ReturnedIsLive(s, caller, d, now);
    q := RowWasQueued(steps, Returned(s, caller, d, now).value);
    assert steps[..|steps|] == steps;
  }

  /** Step i gives a device that has an owner to another one. */
  ghost predicate Transfers(steps: seq<Step>, i: nat, d: string)
    requires i < |steps|
  {
    steps[i].SetOwner? && steps[i].deviceID == d && OwnerAt(steps, i, d).Some? && OwnerAt(steps, i, d) != Some(steps[i].owner)
  }

  lemma OwnerMoves(s: State, e: Step, d: string)
    ensures d in s.owners && !(e.SetOwner? && e.deviceID == d) ==> d in Next(s, e).owners && Next(s, e).owners[d] == s.owners[d]
    ensures e.SetOwner? && e.deviceID == d ==> d in Next(s, e).owners && Next(s, e).owners[d] == e.owner
  {
  }

  lemma {:induction false} OwnerStays(steps: seq<Step>, i: nat, j: nat, d: string)
    requires i <= j <= |steps| && OwnerAt(steps, i, d).Some?
    requires forall k :: i <= k < j ==> !Transfers(steps, k, d)
    ensures OwnerAt(steps, j, d) == OwnerAt(steps, i, d)
    decreases j
  {
    if i < j {
      OwnerStays(steps, i, j - 1, d);
      assert steps[..j][..j-1] == steps[..j-1];
      OwnerMoves(After(steps[..j-1]), steps[j-1], d);
      assert !Transfers(steps, j - 1, d);
      hide Next;
    }
  }

  /** With a clock that never goes back, an agent is only ever handed commands its own user queued, unless the
      device changed hands within the last five minutes. */
  lemma ClaimsOwnCommand(steps: seq<Step>, caller: string, d: string, now: nat)
    requires Monotone(steps) && Returned(After(steps), caller, d, now).Some?
    requires forall i :: 0 <= i < |steps| && Transfers(steps, i, d) ==> steps[i].now + TTL_MS <= now
    ensures var id := Returned(After(steps), caller, d, now).value;
      id < |After(steps).rows| && After(steps).rows[id].owner == caller
  {
    hide Next, Transfers;
    var s := After(steps);
    ReturnedIsLive(s, caller, d, now);
    var id := Returned(s, caller, d, now).value;
    var q := RowWasQueued(steps, id);
    forall k | q <= k < |steps| ensures !Transfers(steps, k, d) {
      assert steps[q].now <= steps[k].now;
    }
    OwnerStays(steps, q, |steps|, d);
    assert steps[..|steps|] == steps;
  }

  /** It happens after a transfer: the new owner's agent claims the old owner's command, and its report is
      then refused, so the row stays claimed. */
  lemma ClaimAfterTransfer(d: string, old_: string, new_: string, command: string)
    requires old_ != new_
    ensures var steps := [SetOwner(d, old_, 0), Queue(old_, d, command, 0), SetOwner(d, new_, 0), ClaimNext(new_, d, 0)];
      && After(steps).claims == [Claim(0, new_, 0)] && After(steps).rows != [] && After(steps).rows[0].owner == old_
      && Next(After(steps), Report(new_, 0, true, 0)) == After(steps)
  {
    var steps := [SetOwner(d, old_, 0), Queue(old_, d, command, 0), SetOwner(d, new_, 0), ClaimNext(new_, d, 0)];
    assert steps[..3][..2] == steps[..2] && steps[..2][..1] == steps[..1] && steps[..1][..0] == [];
    assert After(steps[..1]) == State([], map[d := old_], []);
    var row := Row(d, old_, command, Pending, 0, TTL_MS);
    assert After(steps[..2]) == State([row], map[d := old_], []);
    assert After(steps[..3]) == State([row], map[d := new_], []);
    assert FirstLive([row], d, None, 0, 0) == Some(0);
  }

  // ----- The mutations -----

  datatype Queued = Refused | Id(commandId: nat, deduped: bool)

  class RescueTable {
    var rows: seq<Row>
    var owners: map<string, string>
    var claims: seq<Claim>

    ghost function View(): State
      reads this
    {
      State(rows, owners, claims)
    }

    constructor ()
      ensures View() == After([])
    {
      rows, owners, claims := [], map[], [];
    }

    method QueueRescueCommand(caller: string, d: string, command: string, now: nat) returns (r: Queued)
      modifies this`rows
      ensures View() == Next(old(View()), Queue(caller, d, command, now))
      ensures r.Refused? <==> !Owns(old(View()), caller, d)
      ensures r.Id? ==> r.commandId < |rows| && Live(rows[r.commandId], d, now) && rows[r.commandId].command == command
      ensures r.Id? ==> (r.deduped <==> rows == old(rows))
    {
      if d !in owners || owners[d] != caller { return Refused; }
      for i := 0 to |rows|
        invariant rows == old(rows) && FirstLive(rows, d, Some(command), now, 0) == FirstLive(rows, d, Some(command), now, i)
      {
        if rows[i].deviceID == d && rows[i].status == Pending && rows[i].command == command && rows[i].expiresAt > now {
          return Id(i, true);
        }
      }
      rows := rows + [Row(d, caller, command, Pending, now, now + TTL_MS)];
      return Id(|rows| - 1, false);
    }

    method ClaimNextRescueCommand(caller: string, d: string, now: nat) returns (id: Option<nat>)
      modifies this`rows, this`claims
      ensures View() == Next(old(View()), ClaimNext(caller, d, now))
      ensures id == if Owns(old(View()), caller, d) then FirstLive(old(rows), d, None, now, 0) else None
    {
      if d !in owners || owners[d] != caller { return None; }
      for i := 0 to |rows|
        invariant |rows| == |old(rows)| && rows[i..] == old(rows)[i..] && claims == old(claims)
        invariant Sweep(old(rows), d, now, 0) == Sweep(rows, d, now, i)
        invariant FirstLive(old(rows), d, None, now, 0) == FirstLive(old(rows), d, None, now, i)
      {
        assert rows[i] == rows[i..][0] && old(rows)[i] == old(rows)[i..][0];
        assert rows[i+1..] == rows[i..][1..] && old(rows)[i+1..] == old(rows)[i..][1..];
        if rows[i].deviceID != d || rows[i].status != Pending { continue; }
        if rows[i].expiresAt <= now {
          rows := rows[i := rows[i].(status := Expired)];
          continue;
        }
        rows := rows[i := rows[i].(status := Claimed)];
        claims := claims + [Claim(i, caller, now)];
        return Some(i);
      }
      return None;
    }

    method ReportRescueResult(caller: string, id: nat, ok: bool, now: nat)
      modifies this`rows
      ensures View() == Next(old(View()), Report(caller, id, ok, now))
      ensures |rows| == |old(rows)| && forall j :: 0 <= j < |rows| ==>
        rows[j].status == if j == id && old(rows)[j].owner == caller && old(rows)[j].status == Claimed
                          then (if ok then Completed else Failed) else old(rows)[j].status
    {
      if id >= |rows| || rows[id].owner != caller || rows[id].status != Claimed { return; }
      rows := rows[id := rows[id].(status := if ok then Completed else Failed)];
    }
  }
}
