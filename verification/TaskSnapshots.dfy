/** backend/convex/agentTaskSnapshots.ts: one device's live tasks and its bounded list of tombstones. */
module TaskSnapshots {

  const MAX_TASKS: nat := 200
  const MAX_TOMBSTONES: nat := 1000

  datatype Task = Task(id: string, status: string)

  datatype Tombstone = Tombstone(id: string, deletedAt: nat)

  /** A device without a row yet is the empty snapshot. */
  datatype Snapshot = Snapshot(tasks: seq<Task>, deleted: seq<Tombstone>)

  const EMPTY := Snapshot([], [])

  datatype Step = Sync(tasks: seq<Task>) | Delete(id: string, now: nat)

  function Ids(ts: seq<Tombstone>): set<string> { set t | t in ts :: t.id }

  /** slice(-n). */
  function LastN<T>(s: seq<T>, n: nat): seq<T> { if |s| <= n then s else s[|s|-n..] }

  function KeepTasks(tasks: seq<Task>, gone: set<string>): seq<Task> {
    if tasks == [] then []
    else (if tasks[0].id in gone then [] else [tasks[0]]) + KeepTasks(tasks[1..], gone)
  }

  function Without(ts: seq<Tombstone>, id: string): seq<Tombstone> {
    if ts == [] then []
    else Without(ts[..|ts|-1], id) + if ts[|ts|-1].id == id then [] else [ts[|ts|-1]]
  }

  function FirstN<T>(s: seq<T>, n: nat): seq<T> { if |s| <= n then s else s[..n] }

  function Next(s: Snapshot, e: Step): Snapshot {
    match e
    case Sync(tasks) =>
      var deleted := LastN(s.deleted, MAX_TOMBSTONES);
      Snapshot(FirstN(KeepTasks(tasks, Ids(deleted)), MAX_TASKS), deleted)
    case Delete(id, now) =>
      Snapshot(KeepTasks(s.tasks, {id}), LastN(Without(s.deleted, id) + [Tombstone(id, now)], MAX_TOMBSTONES))
  }

  function After(steps: seq<Step>): Snapshot {
    if steps == [] then EMPTY else Next(After(steps[..|steps|-1]), steps[|steps|-1])
  }

  // ----- The tombstone list that never forgets -----

  /** Every id ever deleted, least recently deleted first. */
  function Unbounded(steps: seq<Step>): seq<Tombstone> {
    if steps == [] then []
    else
      var e, before := steps[|steps|-1], Unbounded(steps[..|steps|-1]);
      if e.Delete? then Without(before, e.id) + [Tombstone(e.id, e.now)] else before
  }

  ghost predicate Distinct(ts: seq<Tombstone>) {
    forall i, j :: 0 <= i < j < |ts| ==> ts[i].id != ts[j].id
  }

  lemma {:induction false} WithoutMembers(ts: seq<Tombstone>, id: string)
    ensures forall t :: t in Without(ts, id) <==> t in ts && t.id != id
    ensures id !in Ids(ts) ==> Without(ts, id) == ts
  {
    if ts != [] {
      WithoutMembers(ts[..|ts|-1], id);
      assert ts == ts[..|ts|-1] + [ts[|ts|-1]];
    }
  }

  lemma {:induction false} WithoutDistinct(ts: seq<Tombstone>, id: string)
    requires Distinct(ts)
    ensures Distinct(Without(ts, id))
  {
    if ts != [] {
      var front := ts[..|ts|-1];
      WithoutDistinct(front, id);
      WithoutMembers(front, id);
      assert forall t :: t in Without(front, id) ==> t.id != ts[|ts|-1].id;
    }
  }

  lemma WithoutLast(ts: seq<Tombstone>, t: Tombstone, id: string)
    ensures Without(ts + [t], id) == Without(ts, id) + if t.id == id then [] else [t]
  {
    assert (ts + [t])[..|ts|] == ts;
  }

  lemma WithoutNothing(id: string)
    ensures Without([], id) == []
  {
  }

  lemma {:induction false} WithoutConcat(a: seq<Tombstone>, b: seq<Tombstone>, id: string)
    ensures Without(a + b, id) == Without(a, id) + Without(b, id)
  {
    hide Without;
    if b == [] {
      assert a + b == a;
      WithoutNothing(id);
    } else {
      var front, t := b[..|b|-1], b[|b|-1];
      WithoutConcat(a, front, id);
      assert a + b == (a + front) + [t] && front + [t] == b;
      WithoutLast(a + front, t, id);
      WithoutLast(front, t, id);
    }
  }

  lemma WithoutOne(a: seq<Tombstone>, t: Tombstone, b: seq<Tombstone>)
    requires t.id !in Ids(a) && t.id !in Ids(b)
    ensures Without(a + [t] + b, t.id) == a + b
  {
    hide Without;
    WithoutConcat(a + [t], b, t.id);
    WithoutConcat(a, [t], t.id);
    WithoutSingle(t, t.id);
    WithoutMembers(a, t.id);
    WithoutMembers(b, t.id);
    assert a + [] + b == a + b;
  }

  lemma WithoutSingle(t: Tombstone, id: string)
    ensures Without([t], id) == if t.id == id then [] else [t]
  {
  }

  lemma DistinctAround(a: seq<Tombstone>, t: Tombstone, b: seq<Tombstone>)
    requires Distinct(a + [t] + b)
    ensures t.id !in Ids(a) && t.id !in Ids(b) && Distinct(b)
  {
    var s := a + [t] + b;
    assert forall i :: 0 <= i < |a| ==> s[i] == a[i];
    assert forall i :: 0 <= i < |b| ==> b[i] == s[|a| + 1 + i];
    assert s[|a|] == t;
  }

  lemma {:induction false} UnboundedDistinct(steps: seq<Step>)
    ensures Distinct(Unbounded(steps))
  {
    if steps != [] {
      var e, before := steps[|steps|-1], Unbounded(steps[..|steps|-1]);
      UnboundedDistinct(steps[..|steps|-1]);
      if e.Delete? {
        WithoutDistinct(before, e.id);
        WithoutMembers(before, e.id);
        assert forall t :: t in Without(before, e.id) ==> t.id != e.id;
      }
    }
  }

  lemma LastNOfConcat(p: seq<Tombstone>, w: seq<Tombstone>, n: nat)
    requires |w| == n
    ensures LastN(p + w, n) == w && LastN(w, n) == w
  {
  }

  lemma Regroup(p: seq<Tombstone>, a: seq<Tombstone>, b: seq<Tombstone>, t: Tombstone)
    ensures (p + a) + b + [t] == p + (a + b + [t])
  {
    assert (p + a) + b == p + (a + b);
  }

  /** The deleted id is among the last n. */
  lemma TruncateRecent(p: seq<Tombstone>, a: seq<Tombstone>, x: Tombstone, b: seq<Tombstone>, t: Tombstone)
    requires Distinct((p + a) + [x] + b)
    ensures var n, v := |a| + 1 + |b|, a + [x] + b;
      LastN(Without(v, x.id) + [t], n) == LastN(Without((p + a) + [x] + b, x.id) + [t], n)
  {
    hide Without, Distinct, Ids, LastN;
    DistinctAround(p + a, x, b);
    IdsConcat(p, a);
    WithoutOne(a, x, b);
    WithoutOne(p + a, x, b);
    Regroup(p, a, b, t);
    LastNOfConcat(p, a + b + [t], |a| + 1 + |b|);
  }

  /** The deleted id is not among the last n. */
  lemma TruncateOlder(p: seq<Tombstone>, v: seq<Tombstone>, id: string, t: Tombstone)
    requires v != [] && id !in Ids(v)
    ensures LastN(Without(v, id) + [t], |v|) == LastN(Without(p + v, id) + [t], |v|)
  {
    hide Without;
    WithoutConcat(p, v, id);
    WithoutMembers(v, id);
    var q, w := Without(p, id), v[1..] + [t];
    assert v + [t] == v[..1] + w && q + v + [t] == (q + v[..1]) + w;
    LastNOfConcat(v[..1], w, |v|);
    LastNOfConcat(q + v[..1], w, |v|);
  }

  lemma Position(ts: seq<Tombstone>, id: string) returns (i: nat)
    requires id in Ids(ts)
    ensures i < |ts| && ts[i].id == id
  {
    i :| 0 <= i < |ts| && ts[i].id == id;
  }

  lemma LastNOfShort(u: seq<Tombstone>, n: nat)
    requires |u| <= n
    ensures LastN(u, n) == u
  {
  }

  /** Deleting in a truncated list is truncating after deleting in the whole list. */
  lemma TruncateLater(u: seq<Tombstone>, id: string, t: Tombstone, n: nat)
    requires Distinct(u) && n >= 1
    ensures LastN(Without(LastN(u, n), id) + [t], n) == LastN(Without(u, id) + [t], n)
  {
    hide Without, Distinct, Ids, LastN;
    if |u| <= n {
      LastNOfShort(u, n);
    } else {
      var p, v := u[..|u|-n], u[|u|-n..];
      assert u == p + v;
      LastNOfConcat(p, v, n);
      if id in Ids(v) {
        var i := Position(v, id);
        assert v == v[..i] + [v[i]] + v[i+1..] && u == (p + v[..i]) + [v[i]] + v[i+1..];
        TruncateRecent(p, v[..i], v[i], v[i+1..], t);
      } else {
        TruncateOlder(p, v, id, t);
      }
    }
  }

  /** Refinement: the stored list is the last thousand entries of the list that never forgets. */
  lemma {:induction false} StoredIsLastThousand(steps: seq<Step>)
    ensures After(steps).deleted == LastN(Unbounded(steps), MAX_TOMBSTONES)
  {
    if steps != [] {
      var e, before := steps[|steps|-1], steps[..|steps|-1];
      StoredIsLastThousand(before);
      UnboundedDistinct(before);
      if e.Delete? { TruncateLater(Unbounded(before), e.id, Tombstone(e.id, e.now), MAX_TOMBSTONES); }
    }
  }

  // ----- How long a deletion is remembered -----

  predicate EverDeleted(steps: seq<Step>, id: string) {
    exists i :: 0 <= i < |steps| && steps[i].Delete? && steps[i].id == id
  }

  /** The distinct ids deleted since the last deletion of `id`. */
  function Since(steps: seq<Step>, id: string): set<string> {
    if steps == [] then {}
    else
      var e := steps[|steps|-1];
      if e.Delete? && e.id == id then {}
      else Since(steps[..|steps|-1], id) + if e.Delete? then {e.id} else {}
  }

  lemma {:induction false} SizeOfIds(ts: seq<Tombstone>)
    requires Distinct(ts)
    ensures |Ids(ts)| == |ts|
  {
    if ts == [] {
      assert Ids(ts) == {};
    } else {
      var front, t := ts[..|ts|-1], ts[|ts|-1];
      SizeOfIds(front);
      assert ts == front + [t];
      assert Ids(ts) == Ids(front) + {t.id};
      assert t.id !in Ids(front);
    }
  }

  lemma IdsConcat(a: seq<Tombstone>, b: seq<Tombstone>)
    ensures Ids(a + b) == Ids(a) + Ids(b)
  {
    assert forall t :: t in a + b <==> t in a || t in b;
  }

  lemma IdsWithout(ts: seq<Tombstone>, id: string)
    ensures Ids(Without(ts, id)) == Ids(ts) - {id}
  {
    WithoutMembers(ts, id);
  }

  lemma IdsSingle(t: Tombstone)
    ensures Ids([t]) == {t.id}
  {
  }

  /** Deleting another id leaves the entry in place and puts that id, once, behind it. */
  lemma DeleteAnother(a: seq<Tombstone>, t: Tombstone, b: seq<Tombstone>, other: Tombstone)
    requires t.id != other.id
    ensures Without(a + [t] + b, other.id) + [other] == Without(a, other.id) + [t] + (Without(b, other.id) + [other])
    ensures Ids(Without(b, other.id) + [other]) == Ids(b) + {other.id}
  {
    hide Without, Ids;
    WithoutConcat(a + [t], b, other.id);
    WithoutConcat(a, [t], other.id);
    WithoutSingle(t, other.id);
    IdsWithout(b, other.id);
    IdsConcat(Without(b, other.id), [other]);
    IdsSingle(other);
  }

  /** In the full list an id is followed by exactly the ids deleted since. */
  lemma {:induction false} FollowedBySince(steps: seq<Step>, id: string) returns (a: seq<Tombstone>, t: Tombstone, b: seq<Tombstone>)
    requires EverDeleted(steps, id)
    ensures Unbounded(steps) == a + [t] + b && t.id == id && Ids(b) == Since(steps, id)
  {
    hide Without;
    var before, e := steps[..|steps|-1], steps[|steps|-1];
    if e.Delete? && e.id == id {
      a, t, b := Without(Unbounded(before), id), Tombstone(id, e.now), [];
      assert Ids(b) == {};
    } else {
      var i :| 0 <= i < |steps| && steps[i].Delete? && steps[i].id == id;
      assert before[i] == steps[i];
      a, t, b := FollowedBySince(before, id);
      if e.Delete? {
        var other := Tombstone(e.id, e.now);
        DeleteAnother(a, t, b, other);
        a, b := Without(a, e.id), Without(b, e.id) + [other];
      }
    }
  }

  lemma {:induction false} OnlyDeletedAreListed(steps: seq<Step>, id: string)
    requires id in Ids(Unbounded(steps))
    ensures EverDeleted(steps, id)
  {
    if steps != [] {
      var before, e := steps[..|steps|-1], steps[|steps|-1];
      if e.Delete? && e.id == id {
        assert steps[|steps|-1].Delete?;
      } else {
        if e.Delete? {
          IdsConcat(Without(Unbounded(before), e.id), [Tombstone(e.id, e.now)]);
          IdsWithout(Unbounded(before), e.id);
        }
        OnlyDeletedAreListed(before, id);
        var i :| 0 <= i < |before| && before[i].Delete? && before[i].id == id;
        assert steps[i] == before[i];
      }
    }
  }

  /** Deleted, and fewer than a thousand distinct other ids deleted since. */
  predicate Remembered(steps: seq<Step>, id: string) { EverDeleted(steps, id) && |Since(steps, id)| < 1000 }

  lemma KeptByPosition(a: seq<Tombstone>, t: Tombstone, b: seq<Tombstone>, n: nat)
    requires Distinct(a + [t] + b)
    ensures t.id in Ids(LastN(a + [t] + b, n)) <==> |b| < n
  {
    var u := a + [t] + b;
    var kept := LastN(u, n);
    DistinctAround(a, t, b);
    if |b| < n {
      assert kept[|kept| - |b| - 1] == t;
    } else {
      assert forall i :: 0 <= i < |kept| ==> kept[i] == b[|b| - n + i];
    }
  }

  /** An id is tombstoned exactly when it was deleted and fewer than a thousand distinct other ids have been
      deleted since. */
  lemma TombstonedIff(steps: seq<Step>, id: string)
    ensures id in Ids(After(steps).deleted) <==> Remembered(steps, id)
  {
    StoredIsLastThousand(steps);
    UnboundedDistinct(steps);
    if EverDeleted(steps, id) {
      var a, t, b := FollowedBySince(steps, id);
      DistinctAround(a, t, b);
      SizeOfIds(b);
      KeptByPosition(a, t, b, MAX_TOMBSTONES);
    } else if id in Ids(After(steps).deleted) {
      LastNIds(Unbounded(steps));
      OnlyDeletedAreListed(steps, id);
    }
  }

  // ----- Live tasks -----

  lemma {:induction false} KeepTasksMembers(tasks: seq<Task>, gone: set<string>)
    ensures |KeepTasks(tasks, gone)| <= |tasks|
    ensures forall t :: t in KeepTasks(tasks, gone) <==> t in tasks && t.id !in gone
  {
    if tasks != [] { KeepTasksMembers(tasks[1..], gone); }
  }

  ghost predicate Live(s: Snapshot, id: string) { exists t :: t in s.tasks && t.id == id }

  /** Over every run: at most 200 live tasks, at most 1000 tombstones with distinct ids, and no id is both. */
  lemma {:induction false} SnapshotInvariant(steps: seq<Step>)
    ensures |After(steps).tasks| <= 200 && |After(steps).deleted| <= 1000 && Distinct(After(steps).deleted)
    ensures forall t :: t in After(steps).tasks ==> t.id !in Ids(After(steps).deleted)
  {
    StoredIsLastThousand(steps);
    UnboundedDistinct(steps);
    if steps != [] {
      var s, e := After(steps[..|steps|-1]), steps[|steps|-1];
      SnapshotInvariant(steps[..|steps|-1]);
      match e {
        case Sync(tasks) =>
          KeepTasksMembers(tasks, Ids(s.deleted));
        case Delete(id, now) =>
          KeepTasksMembers(s.tasks, {id});
          IdsConcat(Without(s.deleted, id), [Tombstone(id, now)]);
          IdsWithout(s.deleted, id);
          LastNIds(Without(s.deleted, id) + [Tombstone(id, now)]);
      }
    }
  }

  lemma LastNIds(ts: seq<Tombstone>)
    ensures Ids(LastN(ts, MAX_TOMBSTONES)) <= Ids(ts)
  {
  }

  /** A deleted task stays gone, whatever the agent reports, until a thousand distinct other ids have been
      deleted after it. */
  lemma DeletedStaysGone(steps: seq<Step>, id: string)
    requires Remembered(steps, id)
    ensures !Live(After(steps), id)
  {
    TombstonedIff(steps, id);
    SnapshotInvariant(steps);
  }

  lemma KeepCons(x: Task, rest: seq<Task>, gone: set<string>)
    ensures KeepTasks([x] + rest, gone) == (if x.id in gone then [] else [x]) + KeepTasks(rest, gone)
  {
    assert ([x] + rest)[1..] == rest;
  }

  lemma Assoc(a: seq<Task>, b: seq<Task>, c: seq<Task>)
    ensures (a + b) + c == a + (b + c)
  {
  }

  lemma {:induction false} KeepConcat(a: seq<Task>, b: seq<Task>, gone: set<string>)
    ensures KeepTasks(a + b, gone) == KeepTasks(a, gone) + KeepTasks(b, gone)
  {
    if a == [] {
      assert a + b == b;
    } else {
      hide KeepTasks;
      var x, r := a[0], a[1..];
      KeepConcat(r, b, gone);
      KeepCons(x, r, gone);
      KeepCons(x, r + b, gone);
      assert a == [x] + r && a + b == [x] + (r + b);
      Assoc(if x.id in gone then [] else [x], KeepTasks(r, gone), KeepTasks(b, gone));
    }
  }

  /** A task that is kept stands behind exactly the kept ones before it. */
  lemma KeptPosition(tasks: seq<Task>, gone: set<string>, p: nat)
    requires p < |tasks| && tasks[p].id !in gone
    ensures var q := |KeepTasks(tasks[..p], gone)|; q < |KeepTasks(tasks, gone)| && KeepTasks(tasks, gone)[q] == tasks[p]
  {
    KeepConcat(tasks[..p], tasks[p..], gone);
    assert tasks == tasks[..p] + tasks[p..];
    assert tasks[p..][0] == tasks[p];
  }

  lemma {:induction false} KeptFrom(tasks: seq<Task>, gone: set<string>, q: nat) returns (p: nat)
    requires q < |KeepTasks(tasks, gone)|
    ensures p < |tasks| && tasks[p] == KeepTasks(tasks, gone)[q] && tasks[p].id !in gone && |KeepTasks(tasks[..p], gone)| == q
  {
    if tasks[0].id in gone {
      p := KeptFrom(tasks[1..], gone, q);
      assert tasks[..p+1][1..] == tasks[1..][..p];
      p := p + 1;
    } else if q == 0 {
      p := 0;
    } else {
      p := KeptFrom(tasks[1..], gone, q - 1);
      assert tasks[..p+1][1..] == tasks[1..][..p];
      p := p + 1;
    }
  }

  /** How many of the first p reported tasks are not remembered as deleted. */
  ghost function NewBefore(steps: seq<Step>, tasks: seq<Task>, p: nat): nat
    requires p <= |tasks|
  {
    if p == 0 then 0 else NewBefore(steps, tasks, p - 1) + if Remembered(steps, tasks[p-1].id) then 0 else 1
  }

  lemma {:induction false} NewBeforeCounts(steps: seq<Step>, tasks: seq<Task>, p: nat)
    requires p <= |tasks|
    ensures NewBefore(steps, tasks, p) == |KeepTasks(tasks[..p], Ids(After(steps).deleted))|
  {
    if p > 0 {
      hide Remembered;
      NewBeforeCounts(steps, tasks, p - 1);
      TombstonedIff(steps, tasks[p-1].id);
      assert tasks[..p] == tasks[..p-1] + [tasks[p-1]];
      KeepConcat(tasks[..p-1], [tasks[p-1]], Ids(After(steps).deleted));
    }
  }

  /** Reported at p is a task that is not remembered as deleted, and fewer than 200 such tasks stand before it. */
  ghost predicate MakesTheCut(steps: seq<Step>, tasks: seq<Task>, p: nat) {
    p < |tasks| && !Remembered(steps, tasks[p].id) && NewBefore(steps, tasks, p) < 200
  }

  /** A report replaces the live list: a task is live afterwards if and only if it makes the cut. So a
      forgotten deletion comes back with the next report. */
  lemma ReportedTaskIsLiveIff(steps: seq<Step>, tasks: seq<Task>, t: Task)
    ensures t in Next(After(steps), Sync(tasks)).tasks <==> exists p: nat :: MakesTheCut(steps, tasks, p) && tasks[p] == t
  {
    hide Remembered, KeepTasks, NewBefore;
    SnapshotInvariant(steps);
    var s := After(steps);
    var gone := Ids(s.deleted);
    assert LastN(s.deleted, MAX_TOMBSTONES) == s.deleted;
    var kept, live := KeepTasks(tasks, gone), Next(s, Sync(tasks)).tasks;
    assert live == FirstN(kept, 200);
    if t in live {
      var q :| 0 <= q < |live| && live[q] == t;
      var p := KeptFrom(tasks, gone, q);
      TombstonedIff(steps, tasks[p].id);
      NewBeforeCounts(steps, tasks, p);
      assert MakesTheCut(steps, tasks, p);
    }
    if p: nat :| MakesTheCut(steps, tasks, p) && tasks[p] == t {
      TombstonedIff(steps, tasks[p].id);
      NewBeforeCounts(steps, tasks, p);
      KeptPosition(tasks, gone, p);
      assert live[NewBefore(steps, tasks, p)] == t;
    }
  }

  /** A deletion removes that task and no other. */
  lemma DeletionIsSelective(steps: seq<Step>, id: string, now: nat, t: Task)
    ensures t in Next(After(steps), Delete(id, now)).tasks <==> t in After(steps).tasks && t.id != id
  {
    KeepTasksMembers(After(steps).tasks, {id});
  }

  // ----- The stored row -----

  class SnapshotRow {
    var tasks: seq<Task>
    var deleted: seq<Tombstone>

    ghost function View(): Snapshot
      reads this
    {
      Snapshot(tasks, deleted)
    }

    constructor ()
      ensures View() == After([])
    {
      tasks, deleted := [], [];
    }

    /** Afterwards no live task is tombstoned, and of the reported ones only tombstoned tasks and those
        beyond the first 200 others are missing; the tombstones are the youngest thousand. */
    method UpsertSnapshot(reported: seq<Task>) returns (applied: nat)
      modifies this
      ensures View() == Next(old(View()), Sync(reported)) && applied == |tasks|
      ensures forall t :: t in tasks ==> t in reported && t.id !in Ids(deleted)
      ensures |tasks| <= 200 && (|tasks| < 200 ==> forall t :: t in reported && t.id !in Ids(deleted) ==> t in tasks)
      ensures |deleted| <= 1000 && deleted == old(deleted)[|old(deleted)| - |deleted|..]
    {
      deleted := LastN(deleted, MAX_TOMBSTONES);
      KeepTasksMembers(reported, Ids(deleted));
      tasks := FirstN(KeepTasks(reported, Ids(deleted)), MAX_TASKS);
      return |tasks|;
    }

    /** Afterwards the id's tombstone is the youngest of at most a thousand, it is the only one of that id,
        older ones are lost only to that bound, and exactly the other live tasks are left. */
    method TombstoneTask(id: string, now: nat)
      modifies this
      ensures View() == Next(old(View()), Delete(id, now))
      ensures 0 < |deleted| <= 1000 && deleted[|deleted|-1] == Tombstone(id, now)
      ensures forall i :: 0 <= i < |deleted| - 1 ==> deleted[i] in old(deleted) && deleted[i].id != id
      ensures |deleted| < 1000 ==> forall t :: t in old(deleted) && t.id != id ==> t in deleted
      ensures forall t :: t in tasks <==> t in old(tasks) && t.id != id
    {
      WithoutMembers(deleted, id);
      KeepTasksMembers(tasks, {id});
      ghost var others := Without(deleted, id);
      deleted := LastN(Without(deleted, id) + [Tombstone(id, now)], MAX_TOMBSTONES);
      tasks := KeepTasks(tasks, {id});
      assert forall i :: 0 <= i < |deleted| - 1 ==> deleted[i] == others[|others| + 1 - |deleted| + i];
      assert |deleted| < 1000 ==> deleted == others + [Tombstone(id, now)];
    }
  }
}
