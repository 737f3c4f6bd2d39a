/** relay/counting_writer.go: meters a streaming response, reports increments, and cuts it at its budget. */
module CountingWriter {

  const REPORT_EVERY: nat := 262144  // 256 KiB

  /** What the wrapped writer did with one Write: how many bytes it took, and whether it failed. */
  datatype Attempt = Attempt(accepted: nat, failed: bool)

  datatype Verdict = Fine | WriteError | BudgetExhausted

  /** `reports` lists the deltas handed to the reporter. */
  datatype Meter = Meter(n: int, budget: nat, reported: int, exhausted: bool, reports: seq<int>)

  function Start(budget: nat): Meter { Meter(0, budget, 0, false, []) }

  function Flush(m: Meter): Meter {
    if m.n - m.reported <= 0 then m else m.(reported := m.n, reports := m.reports + [m.n - m.reported])
  }

  /** `a` is what the wrapped writer would do if it were called. */
  function Write(m: Meter, a: Attempt): (Meter, nat, Verdict) {
    if m.exhausted then (m, 0, BudgetExhausted)
    else if a.accepted == 0 then (m, 0, if a.failed then WriteError else Fine)
    else
      var counted := m.(n := m.n + a.accepted);
      var lagging := if counted.n - counted.reported >= REPORT_EVERY then Flush(counted) else counted;
      if m.budget > 0 && counted.n >= m.budget then (Flush(lagging).(exhausted := true), a.accepted, BudgetExhausted)
      else (lagging, a.accepted, if a.failed then WriteError else Fine)
  }

  function Written(budget: nat, attempts: seq<Attempt>): Meter {
    if attempts == [] then Start(budget)
    else Write(Written(budget, attempts[..|attempts|-1]), attempts[|attempts|-1]).0
  }

  // ----- What the client was sent, independently of the meter -----

  function Total(attempts: seq<Attempt>): nat {
    if attempts == [] then 0 else Total(attempts[..|attempts|-1]) + attempts[|attempts|-1].accepted
  }

  /** How many attempts reach the wrapped writer: up to and including the one that meets the budget. */
  function Cut(budget: nat, attempts: seq<Attempt>): (k: nat)
    ensures k <= |attempts|
  {
    if attempts == [] then 0
    else
      var k := Cut(budget, attempts[..|attempts|-1]);
      if budget > 0 && Total(attempts[..k]) >= budget then k else |attempts|
  }

  function SumOf(reports: seq<int>): int {
    if reports == [] then 0 else SumOf(reports[..|reports|-1]) + reports[|reports|-1]
  }

  lemma SumAppend(reports: seq<int>, x: int)
    ensures SumOf(reports + [x]) == SumOf(reports) + x
  {
    assert (reports + [x])[..|reports|] == reports;
  }

  /** Before the cut every prefix is below the budget. */
  lemma {:induction false} CutIsFirst(budget: nat, attempts: seq<Attempt>, j: nat)
    requires budget > 0 && j < Cut(budget, attempts)
    ensures Total(attempts[..j]) < budget
  {
    var before := attempts[..|attempts|-1];
    var k := Cut(budget, before);
    if j < k {
      CutIsFirst(budget, before, j);
      assert before[..j] == attempts[..j];
    } else {
      assert before[..k] == attempts[..k];
      NothingBetween(budget, before);
    }
  }

  lemma {:induction false} NothingBetween(budget: nat, attempts: seq<Attempt>)
    requires budget > 0 && Total(attempts[..Cut(budget, attempts)]) < budget
    ensures Cut(budget, attempts) == |attempts|
  {
    if attempts != [] {
      var before := attempts[..|attempts|-1];
      assert before[..Cut(budget, before)] == attempts[..Cut(budget, before)];
    }
  }

  ghost predicate Sound(m: Meter) {
    && SumOf(m.reports) == m.reported <= m.n
    && m.n - m.reported < REPORT_EVERY
    && (forall i :: 0 <= i < |m.reports| ==> m.reports[i] > 0)
    && (m.exhausted <==> m.budget > 0 && m.n >= m.budget)
    && (m.exhausted ==> m.reported == m.n)
  }

  lemma WriteKeepsSound(m: Meter, a: Attempt)
    requires Sound(m)
    ensures var m' := Write(m, a).0;
      Sound(m') && m'.budget == m.budget && m'.n == m.n + if m.exhausted then 0 else a.accepted
  {
    SumAppend(m.reports, m.n + a.accepted - m.reported);
  }

  lemma {:induction false} WrittenInv(budget: nat, attempts: seq<Attempt>)
    ensures var m := Written(budget, attempts);
      Sound(m) && m.budget == budget && m.n == Total(attempts[..Cut(budget, attempts)])
  {
    if attempts != [] {
      var before := attempts[..|attempts|-1];
      var m := Written(budget, before);
      WrittenInv(budget, before);
      WriteKeepsSound(m, attempts[|attempts|-1]);
      assert before[..Cut(budget, before)] == attempts[..Cut(budget, before)];
      if !m.exhausted {
        AllReached(budget, before);
        assert before[..|before|] == before && attempts[..|attempts|] == attempts;
      }
    }
  }

  lemma {:induction false} AllReached(budget: nat, attempts: seq<Attempt>)
    requires budget > 0 ==> Total(attempts[..Cut(budget, attempts)]) < budget
    ensures Cut(budget, attempts) == |attempts|
  {
    if budget > 0 { NothingBetween(budget, attempts); }
  }

  /** Exact billing: whatever the chunking and wherever the stream is cut, the reports made by the end of
      Close add up to the bytes the client was sent, each positive, and a second Close reports nothing. */
  lemma BilledExactly(budget: nat, attempts: seq<Attempt>)
    ensures var closed := Flush(Written(budget, attempts));
      && SumOf(closed.reports) == closed.n == Total(attempts[..Cut(budget, attempts)])
      && (forall i :: 0 <= i < |closed.reports| ==> closed.reports[i] > 0)
      && Flush(closed) == closed
  {
    hide Written, Cut, Total, SumOf;
    WrittenInv(budget, attempts);
    var m := Written(budget, attempts);
    SumAppend(m.reports, m.n - m.reported);
  }

  /** After every write less than 256 KiB is unreported. */
  lemma LagIsBounded(budget: nat, attempts: seq<Attempt>)
    ensures 0 <= Written(budget, attempts).n - Written(budget, attempts).reported < REPORT_EVERY
  {
    WrittenInv(budget, attempts);
  }

  /** With a budget the stream is below it before its last effective write, and ends once it is met;
      without one it is never cut. */
  lemma BudgetIsHard(budget: nat, attempts: seq<Attempt>)
    ensures var m, k := Written(budget, attempts), Cut(budget, attempts);
      && (budget > 0 && k > 0 ==> m.n < budget + attempts[k-1].accepted)
      && (m.exhausted <==> budget > 0 && Total(attempts[..k]) >= budget)
      && (k < |attempts| ==> m.exhausted)
  {
    WrittenInv(budget, attempts);
    var k := Cut(budget, attempts);
    if budget > 0 && k > 0 {
      CutIsFirst(budget, attempts, k - 1);
      assert attempts[..k][..k-1] == attempts[..k-1];
    }
    if budget == 0 || Total(attempts[..k]) < budget { AllReached(budget, attempts); }
  }

  /** What a write answers after any attempts: once the bytes sent have met the budget, nothing is taken; before
      that the wrapped writer's count is passed on, with the budget's verdict exactly when this write meets it,
      and otherwise the wrapped writer's own error or none. */
  lemma WriteAnswers(budget: nat, attempts: seq<Attempt>, a: Attempt)
    ensures var sent := Total(attempts[..Cut(budget, attempts)]);
      var (m, accepted, v) := Write(Written(budget, attempts), a);
      if budget > 0 && sent >= budget then accepted == 0 && v == BudgetExhausted && m == Written(budget, attempts)
      else
        && accepted == a.accepted && m.n == sent + a.accepted
        && (v == BudgetExhausted <==> budget > 0 && sent + a.accepted >= budget)
        && (v == WriteError <==> a.failed && v != BudgetExhausted)
  {
    WrittenInv(budget, attempts);
  }

  /** Reports are not made for every write: each one made during the stream is at least 256 KiB, but for the one
      that goes with meeting the budget. */
  lemma {:induction false} ReportsAreLarge(budget: nat, attempts: seq<Attempt>, i: nat)
    requires i < |Written(budget, attempts).reports|
    ensures var m := Written(budget, attempts);
      m.reports[i] >= 262_144 || (m.exhausted && i == |m.reports| - 1)
  {
    if attempts != [] {
      var m := Written(budget, attempts[..|attempts|-1]);
      WrittenInv(budget, attempts[..|attempts|-1]);
      if i < |m.reports| { ReportsAreLarge(budget, attempts[..|attempts|-1], i); }
    }
  }

  // ----- The writer object -----

  class CountingResponseWriter {
    var n: int
    const budget: nat
    var reported: int
    var exhausted: bool
    var reports: seq<int>

    ghost function View(): Meter
      reads this
    {
      Meter(n, budget, reported, exhausted, reports)
    }

    constructor (budget: nat)
      ensures View() == Start(budget)
    {
      this.budget := budget;
      n, reported, exhausted, reports := 0, 0, false, [];
    }

    method FlushReport()
      modifies this`reported, this`reports
      ensures View() == Flush(old(View()))
    {
      var delta := n - reported;
      if delta <= 0 { return; }
      reported := n;
      reports := reports + [delta];
    }

    method WriteBytes(a: Attempt) returns (accepted: nat, v: Verdict)
      modifies this
      ensures (View(), accepted, v) == Write(old(View()), a)
    {
      if exhausted { return 0, BudgetExhausted; }
      if a.accepted > 0 {
        n := n + a.accepted;
        if n - reported >= REPORT_EVERY { FlushReport(); }
        if budget > 0 && n >= budget {
          FlushReport();
          exhausted := true;
          return a.accepted, BudgetExhausted;
        }
      }
      return a.accepted, if a.failed then WriteError else Fine;
    }
  }
}
