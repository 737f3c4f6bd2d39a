/** relay/server.go, the streaming branch of handleProxy: the counting writer reports into the bandwidth
    manager, its budget is what the device had left, and the request side is billed once at the end. Streams
    of one account run side by side and between other requests, and may run past midnight. */
module StreamBilling {
  import opened Bandwidth
  import opened Sums
  import CountingWriter

  datatype Stream = Stream(d: string, budget: nat, attempts: seq<CountingWriter.Attempt>, bytesIn: nat)

  /** The increments reported up to and including Close. */
  function Reports(st: Stream): seq<int> {
    CountingWriter.Flush(CountingWriter.Written(st.budget, st.attempts)).reports
  }

  /** Bytes the client was sent. */
  function Sent(st: Stream): nat {
    CountingWriter.Total(st.attempts[..CountingWriter.Cut(st.budget, st.attempts)])
  }

  /** The last write that reached the client, if any. */
  function LastWrite(st: Stream): nat {
    var k := CountingWriter.Cut(st.budget, st.attempts);
    if k == 0 then 0 else st.attempts[k-1].accepted
  }

  /** What the stream has recorded so far: its reports in order and, after the last one, its request bytes;
      the clock may read anything. */
  ghost predicate Bills(own: seq<Step>, st: Stream) {
    var reports := Reports(st);
    && |own| <= |reports| + 1
    && forall k :: 0 <= k < |own| ==>
         && own[k].Record? && own[k].d == st.d
         && own[k].bytesIn == (if k < |reports| then 0 else st.bytesIn)
         && own[k].bytesOut == (if k < |reports| then reports[k] else 0)
  }

  ghost predicate Closed(own: seq<Step>, st: Stream) { Bills(own, st) && |own| == |Reports(st)| + 1 }

  // ----- Runs with several streams -----

  function Bytes(e: Step): nat { if e.Record? then e.bytesIn + e.bytesOut else 0 }

  /** Bytes of the devices in S recorded on the dates from `first` to `last`. */
  function RecordedIn(steps: seq<Step>, S: set<string>, first: nat, last: nat): nat {
    if steps == [] then 0
    else RecordedIn(steps[..|steps|-1], S, first, last) + Counts(steps[|steps|-1], S, first, last)
  }

  function Counts(e: Step, S: set<string>, first: nat, last: nat): nat {
    if e.Record? && e.d in S && first <= Date(e.now) <= last then Bytes(e) else 0
  }

  /** The steps of a run that belong to stream i; owner[k] names the stream of step k, any number outside
      the streams stands for other requests. */
  function Own(run: seq<Step>, owner: seq<nat>, i: nat): seq<Step>
    requires |run| == |owner|
  {
    if run == [] then []
    else
      var k := |run| - 1;
      Own(run[..k], owner[..k], i) + if owner[k] == i then [run[k]] else []
  }

  function StreamsIn(run: seq<Step>, owner: seq<nat>, n: nat, S: set<string>, first: nat, last: nat): nat
    requires |run| == |owner|
  {
    if n == 0 then 0
    else StreamsIn(run, owner, n - 1, S, first, last) + RecordedIn(Own(run, owner, n - 1), S, first, last)
  }

  /** Bytes recorded by anything but the n streams. */
  function OthersIn(run: seq<Step>, owner: seq<nat>, n: nat, S: set<string>, first: nat, last: nat): nat
    requires |run| == |owner|
  {
    if run == [] then 0
    else
      var k := |run| - 1;
      OthersIn(run[..k], owner[..k], n, S, first, last) + if owner[k] >= n then Counts(run[k], S, first, last) else 0
  }

  lemma RecordedSnoc(steps: seq<Step>, e: Step, S: set<string>, first: nat, last: nat)
    ensures RecordedIn(steps + [e], S, first, last) == RecordedIn(steps, S, first, last) + Counts(e, S, first, last)
  {
    assert (steps + [e])[..|steps|] == steps;
  }

  lemma OwnSnoc(run: seq<Step>, owner: seq<nat>, i: nat, S: set<string>, first: nat, last: nat)
    requires |run| == |owner| > 0
    ensures var k := |run| - 1;
      RecordedIn(Own(run, owner, i), S, first, last)
        == RecordedIn(Own(run[..k], owner[..k], i), S, first, last) + if owner[k] == i then Counts(run[k], S, first, last) else 0
  {
    hide RecordedIn, Counts;
    var k := |run| - 1;
    var own := Own(run[..k], owner[..k], i);
    RecordedSnoc(own, run[k], S, first, last);
    assert own + [] == own;
  }

  lemma {:induction false} StreamsSnoc(run: seq<Step>, owner: seq<nat>, n: nat, S: set<string>, first: nat, last: nat)
    requires |run| == |owner| > 0
    ensures var k := |run| - 1;
      StreamsIn(run, owner, n, S, first, last)
        == StreamsIn(run[..k], owner[..k], n, S, first, last) + if owner[k] < n then Counts(run[k], S, first, last) else 0
  {
    hide RecordedIn, Counts, Own;
    if n > 0 {
      StreamsSnoc(run, owner, n - 1, S, first, last);
      OwnSnoc(run, owner, n - 1, S, first, last);
    }
  }

  /** Every recorded byte belongs to exactly one stream or to another request. */
  lemma {:induction false} BytesSplit(run: seq<Step>, owner: seq<nat>, n: nat, S: set<string>, first: nat, last: nat)
    requires |run| == |owner|
    ensures RecordedIn(run, S, first, last) == OthersIn(run, owner, n, S, first, last) + StreamsIn(run, owner, n, S, first, last)
  {
    if run == [] {
      NoStreams(owner, n, S, first, last);
    } else {
      hide Counts;
      var k := |run| - 1;
      BytesSplit(run[..k], owner[..k], n, S, first, last);
      StreamsSnoc(run, owner, n, S, first, last);
    }
  }

  lemma {:induction false} NoStreams(owner: seq<nat>, n: nat, S: set<string>, first: nat, last: nat)
    requires owner == []
    ensures StreamsIn([], owner, n, S, first, last) == 0
  {
    if n > 0 { NoStreams(owner, n - 1, S, first, last); }
  }

  /** Midnight splits nothing: the bytes of a span of dates are those of its two halves. */
  lemma {:induction false} DatesSplit(steps: seq<Step>, S: set<string>, first: nat, mid: nat, last: nat)
    requires first <= mid < last
    ensures RecordedIn(steps, S, first, last) == RecordedIn(steps, S, first, mid) + RecordedIn(steps, S, mid + 1, last)
  {
    if steps != [] {
      hide Date;
      DatesSplit(steps[..|steps|-1], S, first, mid, last);
    }
  }

  // ----- What one stream contributes -----

  function TotalBytes(steps: seq<Step>): nat {
    if steps == [] then 0 else TotalBytes(steps[..|steps|-1]) + Bytes(steps[|steps|-1])
  }

  ghost predicate AllPositive(reports: seq<int>) {
    forall i :: 0 <= i < |reports| ==> reports[i] > 0
  }

  lemma {:induction false} PartialSum(reports: seq<int>, k: nat)
    requires AllPositive(reports) && k <= |reports|
    ensures 0 <= CountingWriter.SumOf(reports[..k]) <= CountingWriter.SumOf(reports)
    ensures k < |reports| ==> CountingWriter.SumOf(reports[..k+1]) == CountingWriter.SumOf(reports[..k]) + reports[k]
    decreases |reports| - k
  {
    if k == |reports| {
      assert reports[..k] == reports;
      SumPositive(reports);
    } else {
      PartialSum(reports, k + 1);
      assert reports[..k+1] == reports[..k] + [reports[k]];
      CountingWriter.SumAppend(reports[..k], reports[k]);
      SumPositive(reports[..k]);
    }
  }

  lemma {:induction false} SumPositive(reports: seq<int>)
    requires AllPositive(reports)
    ensures CountingWriter.SumOf(reports) >= 0
  {
    if reports != [] { SumPositive(reports[..|reports|-1]); }
  }

  lemma {:induction false} BilledSoFar(own: seq<Step>, st: Stream)
    requires Bills(own, st) && AllPositive(Reports(st))
    ensures var reports := Reports(st);
      TotalBytes(own) == if |own| <= |reports| then CountingWriter.SumOf(reports[..|own|]) else CountingWriter.SumOf(reports) + st.bytesIn
  {
    var reports := Reports(st);
    hide Reports, CountingWriter.SumOf;
    if own == [] {
      assert reports[..0] == [];
      SumOfNothing();
    } else {
      var k := |own| - 1;
      var before := own[..k];
      assert Bills(before, st);
      BilledSoFar(before, st);
      if k < |reports| { PartialSum(reports, k); } else { assert reports[..k] == reports; }
    }
  }

  lemma SumOfNothing()
    ensures CountingWriter.SumOf([]) == 0
  {
  }

  /** A stream has never billed more than it sent and received, and once closed exactly that. */
  lemma StreamTotal(own: seq<Step>, st: Stream)
    requires Bills(own, st)
    ensures TotalBytes(own) <= Sent(st) + st.bytesIn
    ensures Closed(own, st) ==> TotalBytes(own) == Sent(st) + st.bytesIn
  {
    CountingWriter.BilledExactly(st.budget, st.attempts);
    BilledSoFar(own, st);
    hide CountingWriter.SumOf, CountingWriter.Written, CountingWriter.Flush;
    PartialSum(Reports(st), if |own| <= |Reports(st)| then |own| else 0);
  }

  lemma {:induction false} RecordedOfOwn(own: seq<Step>, d: string, S: set<string>, first: nat, last: nat)
    requires forall k :: 0 <= k < |own| ==> own[k].Record? && own[k].d == d
    ensures RecordedIn(own, S, first, last) <= if d in S then TotalBytes(own) else 0
    ensures d in S && (forall k :: 0 <= k < |own| ==> first <= Date(own[k].now) <= last) ==>
      RecordedIn(own, S, first, last) == TotalBytes(own)
  {
    if own != [] {
      hide Date;
      RecordedOfOwn(own[..|own|-1], d, S, first, last);
    }
  }

  /** What the first n streams sent and received, counting only devices in S. */
  function SentIn(streams: seq<Stream>, n: nat, S: set<string>): nat
    requires n <= |streams|
  {
    if n == 0 then 0 else SentIn(streams, n - 1, S) + if streams[n-1].d in S then Sent(streams[n-1]) + streams[n-1].bytesIn else 0
  }

  ghost predicate Within(own: seq<Step>, first: nat, last: nat) {
    forall k :: 0 <= k < |own| ==> first <= Date(own[k].now) <= last
  }

  /** Exact billing in any interleaving and across any number of midnights: what is recorded for the devices
      in S over a span of dates is what other requests recorded and, once each, the bytes sent to the
      clients and received from them by the streams that ran within the span. */
  lemma {:induction false} InterleavedBilling(run: seq<Step>, owner: seq<nat>, streams: seq<Stream>, n: nat, S: set<string>, first: nat, last: nat)
    requires |run| == |owner| && n <= |streams|
    requires forall i :: 0 <= i < n ==> Closed(Own(run, owner, i), streams[i]) && Within(Own(run, owner, i), first, last)
    ensures StreamsIn(run, owner, n, S, first, last) == SentIn(streams, n, S)
    ensures RecordedIn(run, S, first, last) == OthersIn(run, owner, n, S, first, last) + SentIn(streams, n, S)
  {
    hide Sent, Own, OthersIn, Date;
    BytesSplit(run, owner, n, S, first, last);
    if n > 0 {
      InterleavedBilling(run, owner, streams, n - 1, S, first, last);
      var own, st := Own(run, owner, n - 1), streams[n-1];
      assert Closed(own, st) && Within(own, first, last);
      hide RecordedIn;
      StreamTotal(own, st);
      RecordedOfOwn(own, st.d, S, first, last);
    }
  }

  // ----- The account's meter -----

  /** The devices whose bytes count for the account; without one, the device alone. */
  function Members(s: State, a: string, d: string): set<string> {
    if a == "" then {d} else set e | e in s.devices && s.devices[e].accountID == a
  }

  ghost function RecordedBy(steps: seq<Step>, S: set<string>, date: nat): map<string, int> {
    map e | e in S :: Recorded(steps, e, date)
  }

  lemma SumOneMore(m: map<string, int>, m': map<string, int>, d: string, x: int)
    requires m.Keys == m'.Keys && d in m && m'[d] == m[d] + x && forall e :: e in m && e != d ==> m'[e] == m[e]
    ensures Sum(m') == Sum(m) + x
  {
    SumWithout(m, d);
    SumWithout(m', d);
    assert m - {d} == m' - {d};
  }

  lemma {:induction false} SumIsRecordedIn(steps: seq<Step>, S: set<string>, date: nat)
    ensures Sum(RecordedBy(steps, S, date)) == RecordedIn(steps, S, date, date)
  {
    if steps == [] {
      SumOfNonNegatives(RecordedBy(steps, S, date));
    } else {
      hide Date;
      var before, e := steps[..|steps|-1], steps[|steps|-1];
      SumIsRecordedIn(before, S, date);
      var m, m' := RecordedBy(before, S, date), RecordedBy(steps, S, date);
      if e.Record? && e.d in S && Date(e.now) == date {
        SumOneMore(m, m', e.d, Bytes(e));
      } else {
        assert m' == m;
      }
    }
  }

  /** What late resets took out of the counters of the devices in S on a date. */
  ghost function WipedIn(steps: seq<Step>, S: set<string>, date: nat): int {
    Sum(map e | e in S :: Wiped(steps, e, date))
  }

  lemma WipedInIff(run: seq<Step>, S: set<string>, now: nat)
    requires ValidRun(run, now)
    ensures WipedIn(run, S, Date(now)) >= 0
    ensures WipedIn(run, S, Date(now)) == 0 <==> forall e :: e in S ==> NoLateReset(run, e, Date(now))
  {
    hide Date, NoLateReset, Wiped, ValidRun;
    var wiped: map<string, int> := map e | e in S :: Wiped(run, e, Date(now));
    forall e | e in S ensures Wiped(run, e, Date(now)) >= 0 && (Wiped(run, e, Date(now)) == 0 <==> NoLateReset(run, e, Date(now))) {
      CountersAreExact(run, e, now);
      NothingWipedIff(run, e, now);
    }
    SumOfNonNegatives(wiped);
    assert forall e :: e in S ==> wiped[e] == Wiped(run, e, Date(now));
  }

  /** Today's usage of an account is what the run recorded today for its present devices, less what late
      resets of these wiped today. */
  lemma UsageIsRecordedIn(run: seq<Step>, a: string, now: nat, d: string)
    requires ValidRun(run, now)
    ensures var S, today := Members(After(run), a, d), Date(now);
      Usage(After(run), a, today, d) == RecordedIn(run, S, today, today) - WipedIn(run, S, today)
  {
    var S := Members(After(run), a, d);
    SumIsRecordedIn(run, S, Date(now));
    if a == "" {
      CountersAreExact(run, d, now);
      SumOfOne(RecordedBy(run, S, Date(now)), d);
      SumOfOne(map e | e in S :: Wiped(run, e, Date(now)), d);
    } else {
      AccountUsageIsExact(run, a, now, d);
      assert RecordedBy(run, S, Date(now)) == RecordedByAccount(run, a, Date(now));
      assert (map e | e in S :: Wiped(run, e, Date(now))) == WipedByAccount(run, a, Date(now));
    }
  }

  lemma SumOfOne(m: map<string, int>, d: string)
    requires m.Keys == {d}
    ensures Sum(m) == m[d]
  {
    SumWithout(m, d);
    assert m - {d} == map[];
  }

  /** In any interleaving, today's usage of an account is at most what other requests recorded today for its
      present devices and what its streams have billed today so far, and exactly that if and only if none of
      these devices had a late reset today. */
  lemma InterleavedUsage(run: seq<Step>, owner: seq<nat>, n: nat, a: string, now: nat, d: string)
    requires ValidRun(run, now) && |run| == |owner|
    ensures var S, today := Members(After(run), a, d), Date(now);
      var billed := OthersIn(run, owner, n, S, today, today) + StreamsIn(run, owner, n, S, today, today);
      && Usage(After(run), a, today, d) == billed - WipedIn(run, S, today) <= billed
      && (Usage(After(run), a, today, d) == billed <==> forall e :: e in S ==> NoLateReset(run, e, today))
  {
    hide NoLateReset, Usage, RecordedIn, Date;
    UsageIsRecordedIn(run, a, now, d);
    WipedInIff(run, Members(After(run), a, d), now);
    BytesSplit(run, owner, n, Members(After(run), a, d), Date(now), Date(now));
  }

  // ----- How far streams can overshoot -----

  /** The stream's budget is what RemainingBytes answered for a judged device after the first o steps, at a
      moment when the limit was at most `limit` and at least `used` had been counted. */
  ghost predicate OpenedAt(cfg: Config, run: seq<Step>, o: nat, at: nat, st: Stream, limit: int, used: int)
    requires o <= |run|
  {
    var s := After(run[..o]);
    && Judged(s, st.d, at) && st.budget == Remaining(cfg, s, st.d, at)
    && LimitOf(cfg, s, st.d, at) <= limit && UsageOf(s, st.d, at) >= used
  }

  function Allowance(limit: int, used: int): nat { if limit > used then limit - used else 1 }

  /** The last writes and request bytes of the first n streams. */
  function Slack(streams: seq<Stream>, n: nat): nat
    requires n <= |streams|
  {
    if n == 0 then 0 else Slack(streams, n - 1) + LastWrite(streams[n-1]) + streams[n-1].bytesIn
  }

  /** A stream sends less than its budget plus its last write. */
  lemma SentWithinBudget(st: Stream)
    requires st.budget > 0
    ensures Sent(st) < st.budget + LastWrite(st)
  {
    CountingWriter.BudgetIsHard(st.budget, st.attempts);
    CountingWriter.WrittenInv(st.budget, st.attempts);
  }

  lemma {:induction false} StreamsWithinAllowance(run: seq<Step>, owner: seq<nat>, streams: seq<Stream>, n: nat, R: nat, S: set<string>, first: nat, last: nat)
    requires |run| == |owner| && n <= |streams|
    requires forall i :: 0 <= i < n ==> Bills(Own(run, owner, i), streams[i]) && 0 < streams[i].budget <= R
    ensures StreamsIn(run, owner, n, S, first, last) + n <= n * R + Slack(streams, n)
  {
    hide Sent, LastWrite, RecordedIn, Own;
    if n > 0 {
      StreamsWithinAllowance(run, owner, streams, n - 1, R, S, first, last);
      var own, st := Own(run, owner, n - 1), streams[n-1];
      assert Bills(own, st);
      StreamTotal(own, st);
      RecordedOfOwn(own, st.d, S, first, last);
      SentWithinBudget(st);
      assert n * R == (n - 1) * R + R;
    }
  }

  /** n streams opened on judged devices, and run in any interleaving with each other and with other requests,
      can each use the whole allowance that was left when they opened: together they take today's usage to
      less than what other requests recorded, plus n allowances, plus each one's last write and request. */
  lemma StreamsOvershoot(cfg: Config, run: seq<Step>, owner: seq<nat>, streams: seq<Stream>, openedAfter: seq<nat>, at: seq<nat>,
                         limit: int, used: int, a: string, now: nat, d: string)
    requires ValidRun(run, now) && |run| == |owner| && |streams| == |openedAfter| == |at| > 0
    requires forall i :: 0 <= i < |streams| ==>
      openedAfter[i] <= |run| && OpenedAt(cfg, run, openedAfter[i], at[i], streams[i], limit, used) && Bills(Own(run, owner, i), streams[i])
    ensures var S, today, n := Members(After(run), a, d), Date(now), |streams|;
      Usage(After(run), a, today, d) < OthersIn(run, owner, n, S, today, today) + n * Allowance(limit, used) + Slack(streams, n)
  {
    hide ValidRun, Members, Usage, Own, Bills, OthersIn, StreamsIn, OpenedAt, NoLateReset, After, Allowance, Slack, WipedIn, Date;
    var S, today, n := Members(After(run), a, d), Date(now), |streams|;
    InterleavedUsage(run, owner, n, a, now, d);
    forall i | 0 <= i < n ensures 0 < streams[i].budget <= Allowance(limit, used) {
      BudgetWithinAllowance(cfg, run, openedAfter[i], at[i], streams[i], limit, used);
    }
    StreamsWithinAllowance(run, owner, streams, n, Allowance(limit, used), S, today, today);
  }

  lemma BudgetWithinAllowance(cfg: Config, run: seq<Step>, o: nat, at: nat, st: Stream, limit: int, used: int)
    requires o <= |run| && OpenedAt(cfg, run, o, at, st, limit, used)
    ensures 0 < st.budget <= Allowance(limit, used)
  {
    hide LimitOf, UsageOf, After;
  }

  /** RemainingBytes answers 0, and the stream is then never cut, exactly when its device was not judged: no
      record yet, unmetered, or last counted on another day. Such a stream has no bound at all. */
  lemma UnjudgedStreamsAreNeverCut(cfg: Config, s: State, at: nat, st: Stream)
    requires st.budget == Remaining(cfg, s, st.d, at)
    ensures st.budget == 0 <==> st.d !in s.devices || s.devices[st.d].unmetered || s.devices[st.d].resetDate != Date(at)
    ensures st.budget == 0 ==> Sent(st) == CountingWriter.Total(st.attempts)
  {
    MeterVerdicts(cfg, s, st.d, 1, at);
    CountingWriter.WrittenInv(st.budget, st.attempts);
    if st.budget == 0 {
      CountingWriter.AllReached(st.budget, st.attempts);
      assert st.attempts[..|st.attempts|] == st.attempts;
    }
  }

  // ----- The bound is attained -----

  /** n records of R bytes each, one by each of n streams. */
  function EachOnce(d: string, R: nat, now: nat, n: nat): (run: seq<Step>)
    ensures |run| == n
  {
    seq(n, _ => Record(d, 0, R, false, now))
  }

  function Owners(others: nat, n: nat): seq<nat> { seq(others, _ => n) + seq(n, i => i) }

  /** A stream that has sent its whole budget in one write, and is not closed yet. */
  function Greedy(d: string, R: nat): Stream { Stream(d, R, [CountingWriter.Attempt(R, false)], 0) }

  lemma GreedyReports(d: string, R: nat)
    requires R > 0
    ensures Reports(Greedy(d, R)) == [R] && Sent(Greedy(d, R)) == R
  {
    var attempts := [CountingWriter.Attempt(R, false)];
    assert attempts[..0] == [];
    assert attempts[..1] == attempts;
    assert CountingWriter.Written(R, attempts) == CountingWriter.Write(CountingWriter.Start(R), attempts[0]).0;
    assert CountingWriter.Total(attempts) == R;
    assert CountingWriter.Cut(R, attempts) == 1;
  }

  lemma OwnLast(run: seq<Step>, e: Step, owner: seq<nat>, o: nat, i: nat)
    requires |run| == |owner|
    ensures Own(run + [e], owner + [o], i) == Own(run, owner, i) + if o == i then [e] else []
  {
    assert (run + [e])[..|run|] == run && (owner + [o])[..|owner|] == owner;
  }

  lemma {:induction false} OwnOfOthers(run: seq<Step>, n: nat, i: nat)
    requires i < n
    ensures Own(run, seq(|run|, _ => n), i) == []
  {
    if run != [] {
      var k := |run| - 1;
      OwnOfOthers(run[..k], n, i);
      assert seq(|run|, _ => n)[..k] == seq(k, _ => n);
    }
  }

  lemma OneMoreOwner(others: nat, n: nat, m: nat)
    requires 0 < m
    ensures seq(others, _ => n) + seq(m, j => j) == (seq(others, _ => n) + seq(m - 1, j => j)) + [m - 1]
  {
  }

  lemma {:induction false} OwnOfEach(pre: seq<Step>, d: string, R: nat, now: nat, n: nat, m: nat, i: nat)
    requires m <= n && i < n
    ensures Own(pre + EachOnce(d, R, now, m), seq(|pre|, _ => n) + seq(m, j => j), i) == if i < m then [Record(d, 0, R, false, now)] else []
  {
    hide Own, EachOnce;
    OneMore(pre, d, R, now, m);
    var owner := seq(|pre|, _ => n);
    if m == 0 {
      OwnOfOthers(pre, n, i);
      assert owner + seq(0, j => j) == owner;
    } else {
      OwnOfEach(pre, d, R, now, n, m - 1, i);
      OneMoreOwner(|pre|, n, m);
      OwnLast(pre + EachOnce(d, R, now, m - 1), Record(d, 0, R, false, now), owner + seq(m - 1, j => j), m - 1, i);
    }
  }

  lemma OneMore(pre: seq<Step>, d: string, R: nat, now: nat, n: nat)
    ensures pre + EachOnce(d, R, now, n) == if n == 0 then pre else (pre + EachOnce(d, R, now, n - 1)) + [Record(d, 0, R, false, now)]
  {
  }

  lemma AfterSnoc(run: seq<Step>, e: Step)
    ensures After(run + [e]) == Next(After(run), e)
  {
    assert (run + [e])[..|run|] == run;
  }

  /** One more record, no earlier than the run, keeps it valid. */
  lemma SnocValid(run: seq<Step>, d: string, R: nat, now: nat)
    requires ValidRun(run, now)
    ensures ValidRun(run + [Record(d, 0, R, false, now)], now)
  {
    SnocMonotone(run, d, R, now);
    hide Date, Monotone;
    var longer := run + [Record(d, 0, R, false, now)];
    forall k | 0 <= k < |longer| && longer[k].ZeroStale? ensures longer[k].date <= Date(longer[k].now) {
      assert longer[k] == run[k];
    }
  }

  lemma SnocMonotone(run: seq<Step>, d: string, R: nat, now: nat)
    requires Monotone(run) && (run != [] ==> run[|run|-1].now <= now)
    ensures Monotone(run + [Record(d, 0, R, false, now)])
  {
    forall i | 0 <= i < |run| ensures run[i].now <= now { assert run[i].now <= run[|run|-1].now; }
  }

  lemma {:induction false} ExtendsValid(pre: seq<Step>, d: string, R: nat, now: nat, n: nat)
    requires ValidRun(pre, now)
    ensures ValidRun(pre + EachOnce(d, R, now, n), now)
  {
    hide ValidRun, EachOnce;
    OneMore(pre, d, R, now, n);
    if n > 0 {
      ExtendsValid(pre, d, R, now, n - 1);
      SnocValid(pre + EachOnce(d, R, now, n - 1), d, R, now);
    }
  }

  /** A record of a device on today's date moves its account's usage by its bytes, whatever was wiped before. */
  lemma RecordMovesUsage(s: State, d: string, R: nat, now: nat)
    requires d in s.devices && s.devices[d].resetDate == Date(now)
    ensures var s', a := Next(s, Record(d, 0, R, false, now)), s.devices[d].accountID;
      && d in s'.devices && s'.devices[d].resetDate == Date(now) && s'.devices[d].accountID == a
      && Usage(s', a, Date(now), d) == Usage(s, a, Date(now), d) + R
  {
    hide Date;
    var s', a := Next(s, Record(d, 0, R, false, now)), s.devices[d].accountID;
    if a != "" { SumOneMore(CountedByAccount(s, a, Date(now)), CountedByAccount(s', a, Date(now)), d, R); }
  }

  lemma {:induction false} EachOnceMovesUsage(pre: seq<Step>, d: string, R: nat, now: nat, n: nat)
    requires d in After(pre).devices && After(pre).devices[d].resetDate == Date(now)
    ensures var s, s', a := After(pre), After(pre + EachOnce(d, R, now, n)), After(pre).devices[d].accountID;
      && d in s'.devices && s'.devices[d].resetDate == Date(now) && s'.devices[d].accountID == a
      && Usage(s', a, Date(now), d) == Usage(s, a, Date(now), d) + n * R
  {
    hide EachOnce, Date, Usage;
    OneMore(pre, d, R, now, n);
    if n > 0 {
      EachOnceMovesUsage(pre, d, R, now, n - 1);
      AfterSnoc(pre + EachOnce(d, R, now, n - 1), Record(d, 0, R, false, now));
      hide After, Next;
      RecordMovesUsage(After(pre + EachOnce(d, R, now, n - 1)), d, R, now);
      assert n * R == (n - 1) * R + R;
    }
  }

  lemma GreedyBills(pre: seq<Step>, d: string, R: nat, now: nat, n: nat, i: nat)
    requires R > 0 && i < n
    ensures Bills(Own(pre + EachOnce(d, R, now, n), Owners(|pre|, n), i), Greedy(d, R))
  {
    hide Own, Reports;
    OwnOfEach(pre, d, R, now, n, n, i);
    GreedyReports(d, R);
  }

  /** What RemainingBytes answers above 1 is exactly the limit less the usage. */
  lemma Left(cfg: Config, s: State, d: string, now: nat)
    requires Judged(s, d, now) && Remaining(cfg, s, d, now) > 1
    ensures Remaining(cfg, s, d, now) == LimitOf(cfg, s, d, now) - Usage(s, s.devices[d].accountID, Date(now), d)
  {
    hide LimitOf, Usage;
  }

  /** Any number n of streams, opened while R > 1 bytes were left, can each be given all of R: the usage
      reaches the limit plus n - 1 further allowances. */
  lemma EachGetsTheWholeAllowance(cfg: Config, pre: seq<Step>, d: string, now: nat, n: nat) returns (run: seq<Step>, owner: seq<nat>)
    requires ValidRun(pre, now) && Judged(After(pre), d, now) && Remaining(cfg, After(pre), d, now) > 1 && n > 0
    ensures var s, R := After(pre), Remaining(cfg, After(pre), d, now);
      && ValidRun(run, now) && |run| == |owner| && pre <= run
      && OpenedAt(cfg, run, |pre|, now, Greedy(d, R), LimitOf(cfg, s, d, now), UsageOf(s, d, now))
      && (forall i :: 0 <= i < n ==> Bills(Own(run, owner, i), Greedy(d, R)))
      && Usage(After(run), s.devices[d].accountID, Date(now), d) == LimitOf(cfg, s, d, now) + (n - 1) * R
  {
    hide Usage, LimitOf, UsageOf, Own, Bills, ValidRun, Remaining;
    var s, R := After(pre), Remaining(cfg, After(pre), d, now);
    run, owner := pre + EachOnce(d, R, now, n), Owners(|pre|, n);
    assert run[..|pre|] == pre;
    Left(cfg, s, d, now);
    ExtendsValid(pre, d, R, now, n);
    EachOnceMovesUsage(pre, d, R, now, n);
    assert n * R == (n - 1) * R + R;
    forall i | 0 <= i < n ensures Bills(Own(run, owner, i), Greedy(d, R)) { GreedyBills(pre, d, R, now, n, i); }
  }
}
