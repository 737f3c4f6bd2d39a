/** relay/bandwidth.go: per-device counters, one daily allowance per account, and a load-dependent limit.
    Time is in milliseconds; a date is a day number. */
module Bandwidth {
  import opened Wrappers
  import opened Sums

  datatype Config = Config(freeMB: nat, paidMB: nat, maxMbps: nat, low: real, high: real, relax: real)

  datatype Device = Device(
    accountID: string, isPaid: bool, unmetered: bool,
    bytesIn: int, bytesOut: int, resetDate: nat,
    lastActive: Option<nat>, windowStart: Option<nat>, windowBytes: int)
  {
    function Bytes(): int { bytesIn + bytesOut }
  }

  datatype State = State(devices: map<string, Device>, totalIn: int, totalOut: int)

  const DAY: nat := 86_400_000
  const MINUTE: nat := 60_000

  function Date(now: nat): nat { now / DAY }

  function NewDevice(isPaid: bool, unmetered: bool, date: nat): Device {
    Device("", isPaid, unmetered, 0, 0, date, None, None, 0)
  }

  function Existing(s: State, d: string, otherwise: Device): Device {
    if d in s.devices then s.devices[d] else otherwise
  }

  function ZeroCounters(dev: Device, date: nat): Device {
    dev.(bytesIn := 0, bytesOut := 0, resetDate := date)
  }

  function Count(dev: Device, bytesIn: int, bytesOut: int, isPaid: bool, now: nat): Device {
    var dev := if dev.resetDate != Date(now) then ZeroCounters(dev, Date(now)) else dev;
    var restart := dev.windowStart.None? || now - dev.windowStart.value >= MINUTE;
    dev.(bytesIn := dev.bytesIn + bytesIn, bytesOut := dev.bytesOut + bytesOut,
         windowStart := if restart then Some(now) else dev.windowStart,
         windowBytes := (if restart then 0 else dev.windowBytes) + bytesIn + bytesOut,
         isPaid := dev.isPaid || isPaid,
         lastActive := Some(now))
  }

  datatype Step =
    | Record(d: string, bytesIn: nat, bytesOut: nat, isPaid: bool, now: nat)
    | Bind(d: string, accountID: string, now: nat)
    | SetTier(d: string, isPaid: bool, unmetered: bool, now: nat)
    | ZeroStale(d: string, date: nat, now: nat)   // the locked block of CheckAllowed; `date` was read before the lock
    | Cleanup(now: nat)

  predicate Idle(dev: Device, now: nat) {
    dev.lastActive.None? || dev.lastActive.value < now - 7 * DAY
  }

  function Next(s: State, e: Step): State {
    match e
    case Record(d, i, o, paid, now) =>
      var dev := Existing(s, d, NewDevice(paid, false, Date(now)));
      State(s.devices[d := Count(dev, i, o, paid, now)], s.totalIn + i, s.totalOut + o)
    case Bind(d, a, now) =>
      if d == "" || a == "" then s
      else s.(devices := s.devices[d := Existing(s, d, NewDevice(false, false, Date(now))).(accountID := a)])
    case SetTier(d, paid, unmetered, now) =>
      s.(devices := s.devices[d := Existing(s, d, NewDevice(paid, unmetered, Date(now))).(isPaid := paid, unmetered := unmetered)])
    case ZeroStale(d, date, _) =>
      if d in s.devices then s.(devices := s.devices[d := ZeroCounters(s.devices[d], date)]) else s
    case Cleanup(now) => s.(devices := map d | d in s.devices && !Idle(s.devices[d], now) :: s.devices[d])
  }

  const EMPTY := State(map[], 0, 0)

  function After(steps: seq<Step>): State {
    if steps == [] then EMPTY else Next(After(steps[..|steps|-1]), steps[|steps|-1])
  }

  ghost predicate Monotone(steps: seq<Step>) {
    forall i, j :: 0 <= i <= j < |steps| ==> steps[i].now <= steps[j].now
  }

  // ----- Conservation -----

  /** Bytes of device d recorded on a date, read off the history. */
  function Recorded(steps: seq<Step>, d: string, date: nat): nat {
    if steps == [] then 0
    else
      var e := steps[|steps|-1];
      Recorded(steps[..|steps|-1], d, date)
      + if e.Record? && e.d == d && Date(e.now) == date then e.bytesIn + e.bytesOut else 0
  }

  /** What the counters say was used on a date. */
  function Counted(s: State, d: string, date: nat): int {
    if d in s.devices && s.devices[d].resetDate == date then s.devices[d].Bytes() else 0
  }

  /** CheckAllowed saw an old date of d's before it took the lock, and meets bytes of today under it. */
  predicate LateReset(s: State, e: Step, d: string, date: nat) {
    e.ZeroStale? && e.d == d && Date(e.now) == date && Counted(s, d, date) != 0
  }

  ghost predicate NoLateReset(steps: seq<Step>, d: string, date: nat) {
    forall k :: 0 <= k < |steps| ==> !LateReset(After(steps[..k]), steps[k], d, date)
  }

  /** What late resets on a date took out of d's counters. */
  function Wiped(steps: seq<Step>, d: string, date: nat): int {
    if steps == [] then 0
    else
      var before, e := steps[..|steps|-1], steps[|steps|-1];
      Wiped(before, d, date) + if LateReset(After(before), e, d, date) then Counted(After(before), d, date) else 0
  }

  ghost predicate Plausible(dev: Device, now: nat) {
    && dev.bytesIn >= 0 && dev.bytesOut >= 0
    && dev.resetDate <= Date(now)
    && (dev.Bytes() > 0 ==> dev.lastActive.Some? && dev.resetDate <= Date(dev.lastActive.value))
  }

  ghost predicate DatesReadInPast(steps: seq<Step>) {
    forall k :: 0 <= k < |steps| && steps[k].ZeroStale? ==> steps[k].date <= Date(steps[k].now)
  }

  ghost predicate ValidRun(steps: seq<Step>, now: nat) {
    Monotone(steps) && DatesReadInPast(steps) && (steps != [] ==> steps[|steps|-1].now <= now)
  }

  lemma DateMonotone(a: nat, b: nat)
    requires a <= b
    ensures Date(a) <= Date(b)
  {
  }

  lemma IdleForAWeek(a: nat, b: nat)
    requires a < b - 7 * DAY
    ensures Date(a) < Date(b)
  {
  }

  lemma StepKeepsPlausible(s: State, e: Step, d: string)
    requires d in s.devices ==> Plausible(s.devices[d], e.now)
    requires e.ZeroStale? ==> e.date <= Date(e.now)
    ensures d in Next(s, e).devices ==> Plausible(Next(s, e).devices[d], e.now)
  {
  }

  lemma {:induction false} AlwaysPlausible(steps: seq<Step>, d: string, now: nat)
    requires ValidRun(steps, now)
    ensures d in After(steps).devices ==> Plausible(After(steps).devices[d], now)
  {
    if steps != [] {
      var e := steps[|steps|-1];
      AlwaysPlausible(steps[..|steps|-1], d, e.now);
      StepKeepsPlausible(After(steps[..|steps|-1]), e, d);
      DateMonotone(e.now, now);
    }
  }

  /** How one step moves a device's count for its own day. */
  lemma StepCounts(s: State, e: Step, d: string)
    requires d in s.devices ==> Plausible(s.devices[d], e.now)
    ensures Counted(Next(s, e), d, Date(e.now))
         == if e.ZeroStale? && e.d == d then 0
            else Counted(s, d, Date(e.now)) + if e.Record? && e.d == d then e.bytesIn + e.bytesOut else 0
    ensures Counted(s, d, Date(e.now)) >= 0
  {
    if e.Cleanup? && d in s.devices && s.devices[d].lastActive.Some? && Idle(s.devices[d], e.now) {
      IdleForAWeek(s.devices[d].lastActive.value, e.now);
    }
  }

  lemma {:induction false} NothingYet(steps: seq<Step>, d: string, date: nat)
    requires forall k :: 0 <= k < |steps| ==> Date(steps[k].now) < date
    ensures Recorded(steps, d, date) == 0 && Wiped(steps, d, date) == 0
  {
    if steps != [] { NothingYet(steps[..|steps|-1], d, date); }
  }

  /** Conservation, in every run: today's counters hold the bytes recorded today less those that late
      resets of this very device wiped today. */
  lemma {:induction false} CountersAreExact(steps: seq<Step>, d: string, now: nat)
    requires ValidRun(steps, now)
    ensures Counted(After(steps), d, Date(now)) == Recorded(steps, d, Date(now)) - Wiped(steps, d, Date(now))
    ensures Wiped(steps, d, Date(now)) >= 0
  {
    AlwaysPlausible(steps, d, now);
    if steps != [] {
      var e, before := steps[|steps|-1], steps[..|steps|-1];
      DateMonotone(e.now, now);
      if Date(e.now) == Date(now) {
        CountersAreExact(before, d, e.now);
        AlwaysPlausible(before, d, e.now);
        hide Date, After;
        StepCounts(After(before), e, d);
        LastStep(steps);
      } else {
        forall k | 0 <= k < |steps| ensures Date(steps[k].now) < Date(now) { DateMonotone(steps[k].now, e.now); }
        NothingYet(steps, d, Date(now));
        AlwaysPlausible(steps, d, e.now);
      }
    }
  }

  lemma LastStep(steps: seq<Step>)
    requires steps != []
    ensures After(steps) == Next(After(steps[..|steps|-1]), steps[|steps|-1])
  {
  }

  lemma PrefixIsValid(steps: seq<Step>, now: nat)
    requires ValidRun(steps, now) && steps != []
    ensures ValidRun(steps[..|steps|-1], now)
  {
  }

  lemma LateResetsOfPrefix(steps: seq<Step>, d: string, date: nat)
    requires steps != []
    ensures var before := steps[..|steps|-1];
      NoLateReset(steps, d, date) <==> NoLateReset(before, d, date) && !LateReset(After(before), steps[|steps|-1], d, date)
  {
    hide After, LateReset;
    var before := steps[..|steps|-1];
    assert forall k :: 0 <= k < |before| ==> before[..k] == steps[..k] && before[k] == steps[k];
  }

  lemma {:induction false} NothingWipedIff(steps: seq<Step>, d: string, now: nat)
    requires ValidRun(steps, now)
    ensures Wiped(steps, d, Date(now)) == 0 <==> NoLateReset(steps, d, Date(now))
  {
    if steps != [] {
      var before := steps[..|steps|-1];
      PrefixIsValid(steps, now);
      NothingWipedIff(before, d, now);
      CountersAreExact(before, d, now);
      AlwaysPlausible(before, d, now);
      CountedNonNegative(After(before), d, now, Date(now));
      LateResetsOfPrefix(steps, d, Date(now));
      hide After, Counted, Date, NoLateReset, ValidRun, Plausible, Recorded;
    }
  }

  lemma CountedNonNegative(s: State, d: string, now: nat, date: nat)
    requires d in s.devices ==> Plausible(s.devices[d], now)
    ensures Counted(s, d, date) >= 0
  {
  }

  /** In every run the counters never exceed what was recorded today, and hold exactly that if and only if no
      reset of this device met bytes of today. What befell other devices or on other days does not matter. */
  lemma CountersExactIff(steps: seq<Step>, d: string, now: nat)
    requires ValidRun(steps, now)
    ensures Counted(After(steps), d, Date(now)) <= Recorded(steps, d, Date(now))
    ensures Counted(After(steps), d, Date(now)) == Recorded(steps, d, Date(now)) <==> NoLateReset(steps, d, Date(now))
  {
    CountersAreExact(steps, d, now);
    NothingWipedIff(steps, d, now);
  }

  /** The reset re-reads nothing under the lock: it keeps a device's count if and only if no byte of
      today was counted between the unlocked date check and the lock. */
  lemma ResetConservesIff(s: State, d: string, date: nat, now: nat)
    requires d in s.devices ==> s.devices[d].bytesIn >= 0 && s.devices[d].bytesOut >= 0
    ensures Counted(Next(s, ZeroStale(d, date, now)), d, Date(now)) == Counted(s, d, Date(now))
       <==> d !in s.devices || s.devices[d].resetDate != Date(now) || s.devices[d].Bytes() == 0
    ensures d in s.devices ==> Next(s, ZeroStale(d, date, now)) == s.(devices := s.devices[d := s.devices[d].(bytesIn := 0, bytesOut := 0, resetDate := date)])
  {
  }

  /** A check that saw yesterday's date but locks after a record of today wipes that record. */
  lemma LateResetLosesBytes(d: string, n: nat) returns (steps: seq<Step>)
    requires n > 0
    ensures Monotone(steps) && DatesReadInPast(steps) && |steps| == 3
    ensures d in After(steps[..1]).devices && After(steps[..1]).devices[d].resetDate != Date(DAY)
    ensures steps[2] == ZeroStale(d, Date(DAY), DAY)
    ensures Counted(After(steps), d, Date(DAY)) == 0 && Recorded(steps, d, Date(DAY)) == n
  {
    steps := [Record(d, 0, 0, false, 0), Record(d, 0, n, false, DAY), ZeroStale(d, 1, DAY)];
    assert steps[..2][..1] == steps[..1] == [steps[0]];
    assert steps[..1][..0] == [];
    assert After(steps[..1]) == Next(EMPTY, steps[0]);
    assert After(steps[..2]) == Next(After(steps[..1]), steps[1]);
    assert Recorded(steps[..1], d, 1) == 0;
    assert Recorded(steps[..2], d, 1) == n;
  }

  // ----- Tier, account and the one-minute window -----

  /** Usage accounting is no entitlement verdict: records only ever add the paid flag, and nothing but an
      explicit tier or binding changes the rest. */
  lemma TierAndAccountMoves(s: State, e: Step, d: string)
    requires d in s.devices && d in Next(s, e).devices
    ensures var dev, dev' := s.devices[d], Next(s, e).devices[d];
      && dev'.unmetered == (if e.SetTier? && e.d == d then e.unmetered else dev.unmetered)
      && dev'.isPaid == (if e.SetTier? && e.d == d then e.isPaid else dev.isPaid || (e.Record? && e.d == d && e.isPaid))
      && dev'.accountID == (if e.Bind? && e.d == d && d != "" && e.accountID != "" then e.accountID else dev.accountID)
  {
  }

  /** A record made for a device not yet known starts with exactly what that step says. */
  lemma NewDeviceStarts(s: State, e: Step, d: string)
    requires d !in s.devices && d in Next(s, e).devices
    ensures var dev := Next(s, e).devices[d];
      && (e.Record? || e.Bind? || e.SetTier?) && e.d == d && dev.resetDate == Date(e.now)
      && dev.isPaid == (if e.Bind? then false else e.isPaid)
      && dev.unmetered == (e.SetTier? && e.unmetered)
      && dev.accountID == (if e.Bind? then e.accountID else "")
      && dev.Bytes() == (if e.Record? then e.bytesIn + e.bytesOut else 0)
  {
  }

  /** The hourly clean-up removes a device if and only if it has recorded nothing for more than seven days (or
      never), and touches no other. */
  lemma CleanupRemovesIff(s: State, d: string, now: nat)
    requires d in s.devices
    ensures d !in Next(s, Cleanup(now)).devices <==>
      s.devices[d].lastActive.None? || now - s.devices[d].lastActive.value > 7 * 24 * 3600 * 1000
    ensures d in Next(s, Cleanup(now)).devices ==> Next(s, Cleanup(now)).devices[d] == s.devices[d]
  {
  }

  /** A window stays open for its whole minute and no longer. */
  lemma WindowKeepsItsMinute(s: State, e: Step, d: string)
    requires d in s.devices && s.devices[d].windowStart.Some? && e.Record? && e.d == d && s.devices[d].windowStart.value <= e.now
    ensures var started := s.devices[d].windowStart.value;
      Next(s, e).devices[d].windowStart == Some(if e.now < started + 60_000 then started else e.now)
  {
  }

  predicate Records(e: Step, d: string) { e.Record? && e.d == d }

  /** Bytes of device d recorded at or after an instant. */
  function RecordedFrom(steps: seq<Step>, d: string, from: nat): nat {
    if steps == [] then 0
    else
      var e := steps[|steps|-1];
      RecordedFrom(steps[..|steps|-1], d, from) + if Records(e, d) && e.now >= from then e.bytesIn + e.bytesOut else 0
  }

  lemma {:induction false} NothingFrom(steps: seq<Step>, d: string, from: nat)
    requires forall k :: 0 <= k < |steps| && Records(steps[k], d) ==> steps[k].now < from
    ensures RecordedFrom(steps, d, from) == 0
  {
    if steps != [] { NothingFrom(steps[..|steps|-1], d, from); }
  }

  /** An open window started at a record, holds everything recorded since, and no record is past its minute. */
  ghost predicate WindowOk(steps: seq<Step>, d: string, now: nat) {
    var s := After(steps);
    if d in s.devices && s.devices[d].windowStart.Some? then
      var dev := s.devices[d];
      && dev.windowStart.value <= now && dev.windowBytes == RecordedFrom(steps, d, dev.windowStart.value)
      && dev.lastActive.Some? && dev.lastActive.value <= now
      && (forall k :: 0 <= k < |steps| && Records(steps[k], d) ==>
            steps[k].now < dev.windowStart.value + MINUTE && steps[k].now <= dev.lastActive.value)
    else forall k :: 0 <= k < |steps| && Records(steps[k], d) ==> steps[k].now < now
  }

  lemma WindowLater(steps: seq<Step>, d: string, now: nat, later: nat)
    requires WindowOk(steps, d, now) && now <= later
    ensures WindowOk(steps, d, later)
  {
  }

  lemma WindowAfterRecord(steps: seq<Step>, d: string)
    requires steps != [] && Records(steps[|steps|-1], d)
    requires WindowOk(steps[..|steps|-1], d, steps[|steps|-1].now)
    ensures WindowOk(steps, d, steps[|steps|-1].now)
  {
    hide RecordedFrom;
    var before, e := steps[..|steps|-1], steps[|steps|-1];
    var s, dev := After(before), After(steps).devices[d];
    var from := dev.windowStart.value;
    LastRecorded(steps, d, from);
    forall k | 0 <= k < |before| && Records(steps[k], d)
      ensures steps[k].now <= e.now && steps[k].now < from + MINUTE
    {
      assert Records(before[k], d);
    }
    if !(d in s.devices && s.devices[d].windowStart == dev.windowStart) { NothingFrom(before, d, from); }
  }

  lemma LastRecorded(steps: seq<Step>, d: string, from: nat)
    requires steps != []
    ensures var e := steps[|steps|-1];
      RecordedFrom(steps, d, from)
        == RecordedFrom(steps[..|steps|-1], d, from) + if Records(e, d) && e.now >= from then e.bytesIn + e.bytesOut else 0
  {
  }

  lemma WindowAfterOther(steps: seq<Step>, d: string)
    requires steps != [] && !Records(steps[|steps|-1], d)
    requires WindowOk(steps[..|steps|-1], d, steps[|steps|-1].now)
    ensures WindowOk(steps, d, steps[|steps|-1].now)
  {
    var e, s := steps[|steps|-1], After(steps[..|steps|-1]);
    assert d in Next(s, e).devices && d in s.devices ==>
        Next(s, e).devices[d].windowStart == s.devices[d].windowStart && Next(s, e).devices[d].windowBytes == s.devices[d].windowBytes
        && Next(s, e).devices[d].lastActive == s.devices[d].lastActive;
  }

  lemma {:induction false} WindowIsExact(steps: seq<Step>, d: string, now: nat)
    requires Monotone(steps) && (steps != [] ==> steps[|steps|-1].now <= now)
    ensures WindowOk(steps, d, now)
  {
    if steps != [] {
      var e := steps[|steps|-1];
      WindowIsExact(steps[..|steps|-1], d, e.now);
      if Records(e, d) { WindowAfterRecord(steps, d); } else { WindowAfterOther(steps, d); }
      WindowLater(steps, d, e.now, now);
    }
  }

  /** The byte totals of the relay are those of the whole run: no reset or clean-up touches them. */
  lemma {:induction false} TotalsForgetNothing(steps: seq<Step>)
    ensures After(steps).totalIn == AllIn(steps) && After(steps).totalOut == AllOut(steps)
  {
    if steps != [] { TotalsForgetNothing(steps[..|steps|-1]); }
  }

  function AllIn(steps: seq<Step>): nat {
    if steps == [] then 0 else AllIn(steps[..|steps|-1]) + if steps[|steps|-1].Record? then steps[|steps|-1].bytesIn else 0
  }

  function AllOut(steps: seq<Step>): nat {
    if steps == [] then 0 else AllOut(steps[..|steps|-1]) + if steps[|steps|-1].Record? then steps[|steps|-1].bytesOut else 0
  }

  // ----- Account usage -----

  ghost function CountedByAccount(s: State, a: string, date: nat): map<string, int> {
    map d | d in s.devices && s.devices[d].accountID == a && s.devices[d].resetDate == date :: s.devices[d].Bytes()
  }

  ghost function CountedExcept(s: State, a: string, date: nat, todo: set<string>): map<string, int> {
    map d | d in s.devices && d !in todo && s.devices[d].accountID == a && s.devices[d].resetDate == date :: s.devices[d].Bytes()
  }

  lemma CountedGrows(s: State, a: string, date: nat, todo: set<string>, d: string)
    requires d in todo && d in s.devices
    ensures Sum(CountedExcept(s, a, date, todo - {d}))
         == Sum(CountedExcept(s, a, date, todo))
            + if s.devices[d].accountID == a && s.devices[d].resetDate == date then s.devices[d].Bytes() else 0
  {
    var less, more := CountedExcept(s, a, date, todo), CountedExcept(s, a, date, todo - {d});
    if s.devices[d].accountID == a && s.devices[d].resetDate == date {
      SumWith(less, d, s.devices[d].Bytes());
      assert more == less[d := s.devices[d].Bytes()];
    } else {
      assert more == less;
    }
  }

  /** usageForAccountLocked. */
  ghost function Usage(s: State, a: string, date: nat, fallback: string): int {
    if a == "" then Counted(s, fallback, date) else Sum(CountedByAccount(s, a, date))
  }

  /** Bytes recorded on a date, device by device, for the devices now bound to an account. */
  ghost function RecordedByAccount(steps: seq<Step>, a: string, date: nat): map<string, int> {
    map d | d in After(steps).devices && After(steps).devices[d].accountID == a :: Recorded(steps, d, date)
  }

  ghost function WipedByAccount(steps: seq<Step>, a: string, date: nat): map<string, int> {
    map d | d in After(steps).devices && After(steps).devices[d].accountID == a :: Wiped(steps, d, date)
  }

  /** The bytes recorded on a date for the account's present devices, less those wiped that day. */
  ghost function Kept(steps: seq<Step>, a: string, date: nat): int {
    Sum(RecordedByAccount(steps, a, date)) - Sum(WipedByAccount(steps, a, date))
  }

  /** In every run today's usage of an account is what was recorded today for the devices currently bound to
      it, less what late resets of those devices wiped today. */
  lemma AccountUsageIsExact(steps: seq<Step>, a: string, now: nat, fallback: string)
    requires ValidRun(steps, now) && a != ""
    ensures Usage(After(steps), a, Date(now), fallback) == Kept(steps, a, Date(now))
  {
    var today, s := Date(now), After(steps);
    var counted, recorded, wiped := CountedByAccount(s, a, today), RecordedByAccount(steps, a, today), WipedByAccount(steps, a, today);
    var all: map<string, int> := map d | d in recorded :: Counted(s, d, today);
    forall d | d in recorded ensures recorded[d] == all[d] + wiped[d] { CountersAreExact(steps, d, now); }
    SumAdds(all, wiped, recorded);
    SumDropsZeros(all, counted);
  }

  /** It never exceeds what was recorded, and is exactly that if and only if no device now bound to the
      account had a late reset today. */
  lemma AccountUsageExactIff(steps: seq<Step>, a: string, now: nat, fallback: string)
    requires ValidRun(steps, now) && a != ""
    ensures Usage(After(steps), a, Date(now), fallback) <= Sum(RecordedByAccount(steps, a, Date(now)))
    ensures Usage(After(steps), a, Date(now), fallback) == Sum(RecordedByAccount(steps, a, Date(now))) <==>
      forall d :: d in After(steps).devices && After(steps).devices[d].accountID == a ==> NoLateReset(steps, d, Date(now))
  {
    hide NoLateReset, Date, After, Usage;
    AccountUsageIsExact(steps, a, now, fallback);
    var wiped := WipedByAccount(steps, a, Date(now));
    forall d | d in wiped ensures wiped[d] >= 0 && (wiped[d] == 0 <==> NoLateReset(steps, d, Date(now))) {
      CountersAreExact(steps, d, now);
      NothingWipedIff(steps, d, now);
    }
    SumOfNonNegatives(wiped);
  }

  // ----- The load-dependent limit -----

  ghost function RecentBytesByDevice(s: State, now: nat): map<string, int> {
    map d | d in s.devices && s.devices[d].windowStart.Some? && now - s.devices[d].windowStart.value < MINUTE :: s.devices[d].windowBytes
  }

  ghost function RecentExcept(s: State, now: nat, todo: set<string>): map<string, int> {
    map d | d in s.devices && d !in todo && s.devices[d].windowStart.Some? && now - s.devices[d].windowStart.value < MINUTE :: s.devices[d].windowBytes
  }

  lemma RecentGrows(s: State, now: nat, todo: set<string>, d: string)
    requires d in todo && d in s.devices
    ensures Sum(RecentExcept(s, now, todo - {d}))
         == Sum(RecentExcept(s, now, todo))
            + if s.devices[d].windowStart.Some? && now - s.devices[d].windowStart.value < MINUTE then s.devices[d].windowBytes else 0
  {
    var less, more := RecentExcept(s, now, todo), RecentExcept(s, now, todo - {d});
    if s.devices[d].windowStart.Some? && now - s.devices[d].windowStart.value < MINUTE {
      SumWith(less, d, s.devices[d].windowBytes);
      assert more == less[d := s.devices[d].windowBytes];
    } else {
      assert more == less;
    }
  }

  ghost function RecentBytes(s: State, now: nat): int { Sum(RecentBytesByDevice(s, now)) }

  ghost function RecordedLastMinute(steps: seq<Step>, now: nat): map<string, int> {
    map d | d in RecentBytesByDevice(After(steps), now) :: RecordedFrom(steps, d, if now < MINUTE then 0 else now - MINUTE + 1)
  }

  lemma {:induction false} RecordedFromEarlier(steps: seq<Step>, d: string, from: nat, later: nat)
    requires from <= later
    ensures RecordedFrom(steps, d, later) <= RecordedFrom(steps, d, from)
  {
    if steps != [] { RecordedFromEarlier(steps[..|steps|-1], d, from, later); }
  }

  /** A device counts for the load if and only if its window began less than a minute ago. */
  lemma LoadCountsIff(s: State, d: string, now: nat)
    requires d in s.devices ==> s.devices[d].windowStart.Some? ==> s.devices[d].windowStart.value <= now
    ensures d in RecentBytesByDevice(s, now) <==>
      d in s.devices && s.devices[d].windowStart.Some? && now < s.devices[d].windowStart.value + 60_000
  {
  }

  /** The load that relaxes the limits never counts a byte recorded a minute or more ago, and counts every
      byte recorded since each open window began. */
  lemma LoadIsRecent(steps: seq<Step>, d: string, now: nat)
    requires Monotone(steps) && (steps != [] ==> steps[|steps|-1].now <= now)
    requires d in RecentBytesByDevice(After(steps), now)
    ensures RecentBytesByDevice(After(steps), now)[d] == RecordedFrom(steps, d, After(steps).devices[d].windowStart.value)
    ensures RecentBytesByDevice(After(steps), now)[d] <= RecordedLastMinute(steps, now)[d]
  {
    WindowIsExact(steps, d, now);
    var from := if now < MINUTE then 0 else now - MINUTE + 1;
    RecordedFromEarlier(steps, d, from, After(steps).devices[d].windowStart.value);
  }

  function LoadRatio(cfg: Config, recent: int): real {
    if cfg.maxMbps == 0 then 0.0
    else recent as real * 8.0 / 60.0 / 1_000_000.0 / cfg.maxMbps as real
  }

  function FreeMultiplier(cfg: Config, recent: int): real
  {
    var ratio := LoadRatio(cfg, recent);
    if cfg.maxMbps == 0 then cfg.relax
    else if ratio <= cfg.low then cfg.relax
    else if ratio >= cfg.high then 1.0
    else cfg.relax - (cfg.relax - 1.0) * ((ratio - cfg.low) / (cfg.high - cfg.low))
  }

  function Multiplier(cfg: Config, isPaid: bool, recent: int): real
  {
    if isPaid then 1.0 else FreeMultiplier(cfg, recent)
  }

  function LimitMB(cfg: Config, isPaid: bool): nat { if isPaid then cfg.paidMB else cfg.freeMB }

  function EffectiveLimit(cfg: Config, isPaid: bool, recent: int): int
  {
    ((LimitMB(cfg, isPaid) * 1024 * 1024) as real * Multiplier(cfg, isPaid, recent)).Floor
  }

  lemma LoadGrows(cfg: Config, recent: int, more: int)
    requires recent <= more
    ensures LoadRatio(cfg, recent) <= LoadRatio(cfg, more)
  {
    if cfg.maxMbps != 0 {
      var a, b := recent as real * 8.0 / 60.0 / 1_000_000.0, more as real * 8.0 / 60.0 / 1_000_000.0;
      var m := cfg.maxMbps as real;
      assert a <= b && m > 0.0;
      assert b / m - a / m == (b - a) / m;
    }
  }

  /** The ratio is the bits of the last minute over what the configured link carries in a minute. */
  lemma LoadIsMeasured(cfg: Config, recent: int)
    requires cfg.maxMbps != 0
    ensures LoadRatio(cfg, recent) * (60 * 1_000_000 * cfg.maxMbps) as real == (8 * recent) as real
  {
    var m, bits := cfg.maxMbps as real, recent as real * 8.0 / 60.0 / 1_000_000.0;
    assert LoadRatio(cfg, recent) == bits / m;
    assert bits / m * m == bits;
    assert bits * 60_000_000.0 == recent as real * 8.0;
    assert (60 * 1_000_000 * cfg.maxMbps) as real == 60_000_000.0 * m;
    assert bits / m * (60_000_000.0 * m) == bits / m * m * 60_000_000.0;
  }

  lemma QuotientInUnit(x: real, y: real, w: real)
    requires 0.0 <= x <= y <= w && 0.0 < w
    ensures 0.0 <= x / w <= y / w <= 1.0
  {
    assert (x / w) * w == x && (y / w) * w == y;
  }

  lemma ScaledInside(k: real, p: real, q: real)
    requires 0.0 <= k && 0.0 <= p <= q <= 1.0
    ensures 0.0 <= k * p <= k * q <= k
  {
    assert k * (q - p) >= 0.0 && k * (1.0 - q) >= 0.0;
  }

  /** Where the load sits between the two thresholds, clamped to 0..1. */
  function Position(cfg: Config, recent: int): real
  {
    var x, width := LoadRatio(cfg, recent) - cfg.low, cfg.high - cfg.low;
    if cfg.maxMbps == 0 || x <= 0.0 then 0.0 else if x >= width then 1.0 else x / width
  }

  lemma MultiplierByPosition(cfg: Config, recent: int)
    ensures FreeMultiplier(cfg, recent) == cfg.relax - (cfg.relax - 1.0) * Position(cfg, recent)
  {
  }

  lemma PositionGrows(cfg: Config, recent: int, more: int)
    requires recent <= more
    ensures 0.0 <= Position(cfg, recent) <= Position(cfg, more) <= 1.0
  {
    LoadGrows(cfg, recent, more);
    var x, y, width := LoadRatio(cfg, recent) - cfg.low, LoadRatio(cfg, more) - cfg.low, cfg.high - cfg.low;
    if 0.0 < width && 0.0 <= x && y <= width { QuotientInUnit(x, y, width); }
    if 0.0 < width && 0.0 <= x <= width { QuotientInUnit(x, x, width); }
    if 0.0 < width && 0.0 <= y <= width { QuotientInUnit(y, y, width); }
  }

  /** The free multiplier stays within [1, relax] and never rises as recent traffic grows; paid is exactly 1. */
  lemma MultiplierBoundsAndMonotone(cfg: Config, recent: int, more: int)
    requires 1.0 <= cfg.relax && recent <= more
    ensures 1.0 <= Multiplier(cfg, false, more) <= Multiplier(cfg, false, recent) <= cfg.relax
    ensures Multiplier(cfg, true, recent) == 1.0
  {
    hide FreeMultiplier, Position;
    MultiplierByPosition(cfg, recent);
    MultiplierByPosition(cfg, more);
    PositionGrows(cfg, recent, more);
    ScaledInside(cfg.relax - 1.0, Position(cfg, recent), Position(cfg, more));
  }

  /** Full relaxation up to the low threshold, strict limits from the high one, a straight line in between. */
  lemma MultiplierAtThresholds(cfg: Config, recent: int)
    requires cfg.low < cfg.high && cfg.maxMbps != 0
    ensures LoadRatio(cfg, recent) <= cfg.low ==> FreeMultiplier(cfg, recent) == cfg.relax
    ensures LoadRatio(cfg, recent) >= cfg.high ==> FreeMultiplier(cfg, recent) == 1.0
    ensures cfg.low <= LoadRatio(cfg, recent) <= cfg.high ==>
      (cfg.relax - FreeMultiplier(cfg, recent)) * (cfg.high - cfg.low) == (cfg.relax - 1.0) * (LoadRatio(cfg, recent) - cfg.low)
  {
    MultiplierByPosition(cfg, recent);
    hide LoadRatio;
    var x, width := LoadRatio(cfg, recent) - cfg.low, cfg.high - cfg.low;
    var p := Position(cfg, recent);
    assert p == if x <= 0.0 then 0.0 else if x >= width then 1.0 else x / width;
    hide Position, FreeMultiplier;
    OnTheLine(cfg.relax - 1.0, x, width, p);
  }

  lemma OnTheLine(k: real, x: real, width: real, p: real)
    requires width > 0.0 && p == if x <= 0.0 then 0.0 else if x >= width then 1.0 else x / width
    ensures 0.0 <= x <= width ==> k * p * width == k * x
  {
    if 0.0 < x < width {
      assert (x / width) * width == x;
      assert k * p * width == k * (p * width);
    }
  }

  // ----- CheckAllowed and RemainingBytes -----

  /** The record CheckAllowed judges: known, metered, and already on today's date. */
  predicate Judged(s: State, d: string, now: nat) {
    d in s.devices && !s.devices[d].unmetered && s.devices[d].resetDate == Date(now)
  }

  ghost function UsageOf(s: State, d: string, now: nat): int
    requires d in s.devices
  {
    Usage(s, s.devices[d].accountID, s.devices[d].resetDate, d)
  }

  ghost function LimitOf(cfg: Config, s: State, d: string, now: nat): int
    requires d in s.devices
  {
    EffectiveLimit(cfg, s.devices[d].isPaid, RecentBytes(s, now))
  }

  ghost predicate Allowed(cfg: Config, s: State, d: string, n: int, now: nat)
  {
    Judged(s, d, now) ==> UsageOf(s, d, now) + (if n < 0 then 0 else n) <= LimitOf(cfg, s, d, now)
  }

  ghost function Remaining(cfg: Config, s: State, d: string, now: nat): int
  {
    if !Judged(s, d, now) then 0
    else
      var left := LimitOf(cfg, s, d, now) - UsageOf(s, d, now);
      if left <= 0 then 1 else left
  }

  /** The verdicts, without reference to each other: a device that is unknown, unmetered or last counted on another
      day is allowed anything and has 0 remaining, which stands for no limit; any other is allowed n more bytes
      exactly up to its tier's limit, scaled by the present multiplier, and has what is left of that, or 1. */
  lemma MeterVerdicts(cfg: Config, s: State, d: string, n: int, now: nat)
    ensures d !in s.devices || s.devices[d].unmetered || s.devices[d].resetDate != Date(now) ==>
      Allowed(cfg, s, d, n, now) && Remaining(cfg, s, d, now) == 0
    ensures d in s.devices && !s.devices[d].unmetered && s.devices[d].resetDate == Date(now) ==>
      var dev := s.devices[d];
      var limit := (((if dev.isPaid then cfg.paidMB else cfg.freeMB) * 1_048_576) as real
                    * if dev.isPaid then 1.0 else FreeMultiplier(cfg, RecentBytes(s, now))).Floor;
      var used := Usage(s, dev.accountID, Date(now), d);
      && (Allowed(cfg, s, d, n, now) <==> used + (if n < 0 then 0 else n) <= limit)
      && Remaining(cfg, s, d, now) == if used < limit then limit - used else 1
  {
    hide Usage, RecentBytes, FreeMultiplier, Date;
    if d in s.devices {
      var dev := s.devices[d];
      assert LimitMB(cfg, dev.isPaid) * 1024 * 1024 == (if dev.isPaid then cfg.paidMB else cfg.freeMB) * 1_048_576;
    }
  }

  /** The two meters agree on a judged device, up to the value 1 that stands for "nothing left";
      0 means unmetered and is never returned for a judged device. */
  lemma MetersAgree(cfg: Config, s: State, d: string, n: int, now: nat)
    requires n >= 1
    ensures Judged(s, d, now) <==> Remaining(cfg, s, d, now) >= 1
    ensures Judged(s, d, now) && Allowed(cfg, s, d, n, now) ==> n <= Remaining(cfg, s, d, now)
    ensures Remaining(cfg, s, d, now) > 1 ==> (Allowed(cfg, s, d, n, now) <==> n <= Remaining(cfg, s, d, now))
    ensures !Judged(s, d, now) ==> Allowed(cfg, s, d, n, now)
  {
  }

  // ----- The load and the usage are read under two locks -----

  function StrictLimit(cfg: Config, isPaid: bool): nat { LimitMB(cfg, isPaid) * 1024 * 1024 }

  /** int64(float64(bytes) * factor). */
  function Scaled(bytes: nat, factor: real): int { (bytes as real * factor).Floor }

  lemma ScaledFloor(k: nat, p: real, q: real)
    requires 1.0 <= p <= q
    ensures k <= Scaled(k, p) <= Scaled(k, q)
    ensures p == 1.0 ==> Scaled(k, p) == k
  {
    assert k as real * (p - 1.0) >= 0.0 && k as real * (q - p) >= 0.0;
  }

  /** More recent traffic never raises the limit, which stays between the strict and the fully relaxed one. */
  lemma LimitFallsWithLoad(cfg: Config, isPaid: bool, recent: int, more: int)
    requires 1.0 <= cfg.relax && recent <= more
    ensures StrictLimit(cfg, isPaid) <= EffectiveLimit(cfg, isPaid, more) <= EffectiveLimit(cfg, isPaid, recent)
    ensures EffectiveLimit(cfg, isPaid, recent) <= Scaled(StrictLimit(cfg, isPaid), cfg.relax)
    ensures isPaid ==> EffectiveLimit(cfg, isPaid, recent) == StrictLimit(cfg, isPaid)
  {
    MultiplierBoundsAndMonotone(cfg, recent, more);
    MultiplierBoundsAndMonotone(cfg, more, more);
    LimitIsScaled(cfg, isPaid, recent);
    LimitIsScaled(cfg, isPaid, more);
    MultiplierIsFree(cfg, isPaid, recent);
    MultiplierIsFree(cfg, isPaid, more);
    hide Multiplier, EffectiveLimit, StrictLimit, Scaled;
    var k, p, q := StrictLimit(cfg, isPaid), Multiplier(cfg, isPaid, more), Multiplier(cfg, isPaid, recent);
    ScaledFloor(k, p, q);
    ScaledFloor(k, q, cfg.relax);
  }

  lemma LimitIsScaled(cfg: Config, isPaid: bool, recent: int)
    ensures EffectiveLimit(cfg, isPaid, recent) == Scaled(StrictLimit(cfg, isPaid), Multiplier(cfg, isPaid, recent))
  {
  }

  lemma MultiplierIsFree(cfg: Config, isPaid: bool, recent: int)
    ensures Multiplier(cfg, isPaid, recent) == if isPaid then 1.0 else Multiplier(cfg, false, recent)
  {
  }

  /** The limit CheckAllowed computes from its two readings of the tier, one for the megabytes and one for the
      multiplier, and from the load it finds. */
  ghost function LimitAcross(cfg: Config, mbPaid: bool, factorPaid: bool, load: State, now: nat): int {
    Scaled(StrictLimit(cfg, mbPaid), Multiplier(cfg, factorPaid, RecentBytes(load, now)))
  }

  /** Its verdict, when the usage is read in s after those readings. */
  ghost predicate AllowedAcross(cfg: Config, mbPaid: bool, factorPaid: bool, load: State, s: State, d: string, n: int, now: nat)
    requires d in s.devices
  {
    UsageOf(s, d, now) + (if n < 0 then 0 else n) <= LimitAcross(cfg, mbPaid, factorPaid, load, now)
  }

  /** Whatever happens between the readings, the verdict stays in a band: never stricter than the first tier's
      allowance, and never laxer than that allowance itself (second reading paid) or fully relaxed (second
      reading free). With equal readings the first is the limit of one tier and one state of the load. */
  lemma ReadingsBand(cfg: Config, mbPaid: bool, factorPaid: bool, load: State, s: State, d: string, n: nat, now: nat)
    requires 1.0 <= cfg.relax && d in s.devices
    ensures UsageOf(s, d, now) + n <= StrictLimit(cfg, mbPaid) ==> AllowedAcross(cfg, mbPaid, factorPaid, load, s, d, n, now)
    ensures AllowedAcross(cfg, mbPaid, factorPaid, load, s, d, n, now) ==>
      UsageOf(s, d, now) + n <= if factorPaid then StrictLimit(cfg, mbPaid) else Scaled(StrictLimit(cfg, mbPaid), cfg.relax)
    ensures mbPaid == factorPaid ==> LimitAcross(cfg, mbPaid, factorPaid, load, now) == EffectiveLimit(cfg, mbPaid, RecentBytes(load, now))
  {
    var recent := RecentBytes(load, now);
    MultiplierBoundsAndMonotone(cfg, recent, recent);
    MultiplierIsFree(cfg, factorPaid, recent);
    LimitIsScaled(cfg, mbPaid, recent);
    hide Multiplier, EffectiveLimit, StrictLimit, Scaled, RecentBytes, UsageOf;
    var k, p := StrictLimit(cfg, mbPaid), Multiplier(cfg, factorPaid, recent);
    ScaledFloor(k, p, p);
    ScaledFloor(k, p, cfg.relax);
  }

  predicate MovesTier(e: Step, d: string) {
    (e.SetTier? && e.d == d) || (e.Record? && e.d == d && e.isPaid)
  }

  /** From step i to step j the device keeps its record, and nothing moves its tier. */
  ghost predicate TierUntouched(steps: seq<Step>, i: nat, j: nat, d: string)
    requires i <= j <= |steps|
  {
    && (forall k :: i <= k <= j ==> d in After(steps[..k]).devices)
    && (forall k :: i <= k < j ==> !MovesTier(steps[k], d))
  }

  lemma {:induction false} TierStays(steps: seq<Step>, i: nat, j: nat, d: string)
    requires i <= j <= |steps| && TierUntouched(steps, i, j, d)
    ensures d in After(steps[..i]).devices && d in After(steps[..j]).devices
    ensures After(steps[..j]).devices[d].isPaid == After(steps[..i]).devices[d].isPaid
    decreases j
  {
    if i < j {
      TierStays(steps, i, j - 1, d);
      assert steps[..j][..j-1] == steps[..j-1];
      TierAndAccountMoves(After(steps[..j-1]), steps[j-1], d);
    }
  }

  /** A whole CheckAllowed in a run: the megabytes' tier is read after i steps, the multiplier's after j, the
      load after k and the usage after m. If nothing moves the tier in between, a paid verdict is that of the
      last state, and a free one errs from it only by the load that came or went after k. */
  lemma CheckErrsByLoadOnly(cfg: Config, steps: seq<Step>, i: nat, j: nat, k: nat, m: nat, d: string, n: nat, now: nat)
    requires 1.0 <= cfg.relax && i <= j <= k <= m <= |steps|
    requires TierUntouched(steps, i, m, d)
    ensures d in After(steps[..i]).devices && d in After(steps[..j]).devices && d in After(steps[..m]).devices
    ensures var s, load := After(steps[..m]), After(steps[..k]);
      var across := AllowedAcross(cfg, After(steps[..i]).devices[d].isPaid, After(steps[..j]).devices[d].isPaid, load, s, d, n, now);
      Judged(s, d, now) ==>
        && (s.devices[d].isPaid ==> (across <==> Allowed(cfg, s, d, n, now)))
        && (RecentBytes(load, now) <= RecentBytes(s, now) ==> (Allowed(cfg, s, d, n, now) ==> across))
        && (RecentBytes(s, now) <= RecentBytes(load, now) ==> (across ==> Allowed(cfg, s, d, n, now)))
  {
    hide After, MovesTier, EffectiveLimit, LimitAcross, RecentBytes, UsageOf;
    TierStays(steps, i, j, d);
    TierStays(steps, i, m, d);
    var s, load := After(steps[..m]), After(steps[..k]);
    var a, b, paid := RecentBytes(load, now), RecentBytes(s, now), s.devices[d].isPaid;
    ReadingsBand(cfg, paid, paid, load, s, d, n, now);
    LimitFallsWithLoad(cfg, paid, a, a);
    LimitFallsWithLoad(cfg, paid, b, b);
    if a <= b { LimitFallsWithLoad(cfg, paid, a, b); } else { LimitFallsWithLoad(cfg, paid, b, a); }
  }

  const DEFAULT_CONFIG := Config(500, 20_000, 1000, 0.3, 0.8, 3.0)

  const HEAVY: nat := 30_000 * 1024 * 1024

  /** One device has used 30000 MB today, a minute and more ago. */
  function HeavyUser(d: string, isPaid: bool): State {
    State(map[d := Device("", isPaid, false, 0, HEAVY, 0, Some(0), Some(0), HEAVY)], 0, HEAVY)
  }

  lemma HeavyUserArises(d: string)
    ensures var steps := [SetTier(d, true, false, 0), Record(d, 0, HEAVY, false, 0), SetTier(d, false, false, MINUTE)];
      After(steps[..2]) == HeavyUser(d, true) && After(steps) == HeavyUser(d, false)
  {
    var steps := [SetTier(d, true, false, 0), Record(d, 0, HEAVY, false, 0), SetTier(d, false, false, MINUTE)];
    assert steps[..2][..1] == steps[..1] && steps[..1][..0] == [];
    assert After(steps[..1]) == State(map[d := NewDevice(true, false, 0)], 0, 0);
    assert After(steps[..2]) == Next(After(steps[..1]), steps[1]);
  }

  lemma HeavyUserMeters(d: string, isPaid: bool)
    ensures var s := HeavyUser(d, isPaid);
      Judged(s, d, MINUTE) && UsageOf(s, d, MINUTE) == HEAVY && RecentBytes(s, MINUTE) == 0 && s.devices[d].isPaid == isPaid
  {
    assert RecentBytesByDevice(HeavyUser(d, isPaid), MINUTE) == map[];
  }

  /** A tier that moves does matter: with the default configuration a downgrade between the two readings lets a
      device through that has used 30000 MB, above its limit before and above its limit after. */
  lemma DowngradeBetweenReadings(d: string) returns (steps: seq<Step>)
    ensures |steps| == 3 && steps[2] == SetTier(d, false, false, MINUTE)
    ensures d in After(steps[..2]).devices && d in After(steps).devices
    ensures var before, s := After(steps[..2]), After(steps);
      && before.devices[d].isPaid && !s.devices[d].isPaid && UsageOf(s, d, MINUTE) == HEAVY
      && !Allowed(DEFAULT_CONFIG, before, d, 0, MINUTE) && !Allowed(DEFAULT_CONFIG, s, d, 0, MINUTE)
      && AllowedAcross(DEFAULT_CONFIG, before.devices[d].isPaid, s.devices[d].isPaid, s, s, d, 0, MINUTE)
  {
    hide After, RecentBytes, UsageOf, EffectiveLimit, Scaled, HeavyUser;
    steps := [SetTier(d, true, false, 0), Record(d, 0, HEAVY, false, 0), SetTier(d, false, false, MINUTE)];
    HeavyUserArises(d);
    HeavyUserMeters(d, true);
    HeavyUserMeters(d, false);
    IdleLimits();
  }

  lemma IdleLimits()
    ensures EffectiveLimit(DEFAULT_CONFIG, true, 0) == 20_000 * 1024 * 1024
    ensures EffectiveLimit(DEFAULT_CONFIG, false, 0) == 1_500 * 1024 * 1024
    ensures Scaled(StrictLimit(DEFAULT_CONFIG, true), Multiplier(DEFAULT_CONFIG, false, 0)) == 60_000 * 1024 * 1024
  {
    assert LoadRatio(DEFAULT_CONFIG, 0) == 0.0;
    assert Multiplier(DEFAULT_CONFIG, false, 0) == 3.0;
  }

  /** How an account's traffic is split over its devices is irrelevant: two runs with the same total kept
      today (all that was recorded, where no reset of the account's devices was late), the same tier and the
      same load give the same verdicts. */
  lemma SplitIsIrrelevant(cfg: Config, run: seq<Step>, run': seq<Step>, d: string, d': string, a: string, n: int, now: nat)
    requires ValidRun(run, now) && ValidRun(run', now) && a != ""
    requires Judged(After(run), d, now) && Judged(After(run'), d', now)
    requires After(run).devices[d].accountID == a == After(run').devices[d'].accountID
    requires After(run).devices[d].isPaid == After(run').devices[d'].isPaid
    requires RecentBytes(After(run), now) == RecentBytes(After(run'), now)
    requires Kept(run, a, Date(now)) == Kept(run', a, Date(now))
    ensures Allowed(cfg, After(run), d, n, now) <==> Allowed(cfg, After(run'), d', n, now)
    ensures Remaining(cfg, After(run), d, now) == Remaining(cfg, After(run'), d', now)
  {
    AccountUsageIsExact(run, a, now, d);
    AccountUsageIsExact(run', a, now, d');
  }

  // ----- The manager object -----

  class BandwidthManager {
    const cfg: Config
    var devices: map<string, Device>
    var totalIn: int
    var totalOut: int

    ghost function View(): State
      reads this
    {
      State(devices, totalIn, totalOut)
    }

    constructor (cfg: Config)
      ensures View() == EMPTY && this.cfg == cfg
    {
      this.cfg := cfg;
      devices, totalIn, totalOut := map[], 0, 0;
    }

    method UsageForAccount(a: string, date: nat, fallback: string) returns (total: int)
      ensures total == Usage(View(), a, date, fallback)
    {
      if a == "" {
        if fallback in devices && devices[fallback].resetDate == date {
          return devices[fallback].bytesIn + devices[fallback].bytesOut;
        }
        return 0;
      }
      assert CountedExcept(View(), a, date, devices.Keys) == map[];
      total := 0;
      var todo := devices.Keys;
      ghost var s := View();
      while todo != {}
        invariant todo <= devices.Keys
        invariant total == Sum(CountedExcept(s, a, date, todo))
        decreases |todo|
      {
        var d :| d in todo;
        CountedGrows(s, a, date, todo, d);
        todo := todo - {d};
        if devices[d].accountID == a && devices[d].resetDate == date {
          total := total + devices[d].bytesIn + devices[d].bytesOut;
        }
      }
      assert CountedExcept(s, a, date, {}) == CountedByAccount(s, a, date);
    }

    method CurrentRecentBytes(now: nat) returns (recent: int)
      ensures recent == RecentBytes(View(), now)
    {
      recent := 0;
      var todo := devices.Keys;
      ghost var s := View();
      assert RecentExcept(s, now, todo) == map[];
      while todo != {}
        invariant todo <= devices.Keys
        invariant recent == Sum(RecentExcept(s, now, todo))
        decreases |todo|
      {
        var d :| d in todo;
        RecentGrows(s, now, todo, d);
        todo := todo - {d};
        if devices[d].windowStart.Some? && now - devices[d].windowStart.value < MINUTE {
          recent := recent + devices[d].windowBytes;
        }
      }
      assert RecentExcept(s, now, {}) == RecentBytesByDevice(s, now);
    }

    /** Run without interference; interleaved, its locked reset is the step ZeroStale. */
    method CheckAllowed(d: string, bytesRequested: int, now: nat) returns (ok: bool)
      modifies this`devices
      ensures ok == Allowed(cfg, old(View()), d, bytesRequested, now)
      ensures d !in old(devices) || old(devices)[d].unmetered || old(devices)[d].resetDate != Date(now) ==> ok
      ensures View() == if d in old(devices) && !old(devices)[d].unmetered && old(devices)[d].resetDate != Date(now)
                        then Next(old(View()), ZeroStale(d, Date(now), now)) else old(View())
    {
      if d !in devices { return true; }
      var dev := devices[d];
      if dev.unmetered { return true; }
      var today := Date(now);
      if dev.resetDate != today {
        devices := devices[d := ZeroCounters(dev, today)];
        return true;
      }
      var recent := CurrentRecentBytes(now);
      var limit := EffectiveLimit(cfg, dev.isPaid, recent);
      var used := UsageForAccount(dev.accountID, dev.resetDate, d);
      return used + (if bytesRequested < 0 then 0 else bytesRequested) <= limit;
    }

    method RemainingBytes(d: string, now: nat) returns (left: int)
      ensures left == Remaining(cfg, View(), d, now)
      ensures left == 0 <==> d !in devices || devices[d].unmetered || devices[d].resetDate != Date(now)
    {
      if d !in devices || devices[d].unmetered || devices[d].resetDate != Date(now) { return 0; }
      var recent := CurrentRecentBytes(now);
      var effective := EffectiveLimit(cfg, devices[d].isPaid, recent);
      var used := UsageForAccount(devices[d].accountID, devices[d].resetDate, d);
      left := effective - used;
      if left <= 0 { left := 1; }
    }

    method RecordBytes(d: string, bytesIn: nat, bytesOut: nat, isPaid: bool, now: nat)
      modifies this`devices, this`totalIn, this`totalOut
      ensures View() == Next(old(View()), Record(d, bytesIn, bytesOut, isPaid, now))
    {
      var today := Date(now);
      var dev := if d in devices then devices[d] else NewDevice(isPaid, false, today);
      if dev.resetDate != today {
        dev := dev.(bytesIn := 0, bytesOut := 0, resetDate := today);
      }
      dev := dev.(bytesIn := dev.bytesIn + bytesIn, bytesOut := dev.bytesOut + bytesOut);
      if dev.windowStart.None? || now - dev.windowStart.value >= MINUTE {
        dev := dev.(windowStart := Some(now), windowBytes := 0);
      }
      dev := dev.(windowBytes := dev.windowBytes + bytesIn + bytesOut, lastActive := Some(now));
      if isPaid { dev := dev.(isPaid := true); }
      devices := devices[d := dev];
      totalIn, totalOut := totalIn + bytesIn, totalOut + bytesOut;
    }

    method BindDeviceAccount(d: string, accountID: string, now: nat)
      modifies this`devices
      ensures View() == Next(old(View()), Bind(d, accountID, now))
    {
      if d == "" || accountID == "" { return; }
      var dev := if d in devices then devices[d] else NewDevice(false, false, Date(now));
      devices := devices[d := dev.(accountID := accountID)];
    }

    method SetDeviceTier(d: string, isPaid: bool, unmetered: bool, now: nat)
      modifies this`devices
      ensures View() == Next(old(View()), SetTier(d, isPaid, unmetered, now))
    {
      if d in devices {
        devices := devices[d := devices[d].(isPaid := isPaid, unmetered := unmetered)];
      } else {
        devices := devices[d := NewDevice(isPaid, unmetered, Date(now))];
      }
    }

    method CleanupTick(now: nat)
      modifies this`devices
      ensures View() == Next(old(View()), Cleanup(now))
    {
      var todo := devices.Keys;
      while todo != {}
        invariant todo <= old(devices).Keys
        invariant devices == map d | d in old(devices) && (d in todo || !Idle(old(devices)[d], now)) :: old(devices)[d]
        decreases |todo|
      {
        var d :| d in todo;
        todo := todo - {d};
        if Idle(devices[d], now) { devices := devices - {d}; }
      }
    }
  }
}
