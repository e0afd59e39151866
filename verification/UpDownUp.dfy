/** The up-down-up test: apply everything, roll everything back, apply it again. */
module UpDownUp {
  import opened Text
  import opened Changelog
  import opened Migrations
  import opened Adapter

  predicate AllApplied(files: seq<string>, log: Log) {
    forall k :: 0 <= k < |files| ==> files[k] in log
  }

  predicate NoneApplied(files: seq<string>, log: Log) {
    forall k :: 0 <= k < |files| ==> files[k] !in log
  }

  lemma {:induction false} PendingIsRest(files: seq<string>, log: Log, k: nat)
    requires k < |files| && files[k] !in log
    ensures files[k] in Pending(files, log)
    decreases |files|
  {
    if k > 0 {
      assert files[1..][k - 1] == files[k];
      PendingIsRest(files[1..], log, k - 1);
    }
  }

  /** An up that went through leaves nothing pending. */
  lemma UpCompletes(files: seq<string>, s: State, s': State, applied: seq<string>, disk: Disk, hash: string -> string)
    requires applied == Pending(files, s.log) && Grown(s, s', applied, None, disk, hash)
    ensures AllApplied(files, s'.log)
  {
    forall k | 0 <= k < |files| ensures files[k] in s'.log {
      if files[k] !in s.log { PendingIsRest(files, s.log, k); }
    }
  }

  lemma NewestHasAll(db: DbType, files: seq<string>, log: Log)
    requires Applied(files, log) == files
    ensures var newest := NewestFirst(db, files, log);
            |newest| == |files| && forall k :: 0 <= k < |files| ==> files[k] in newest
  {
    AppliedIn(files, log);
    if db.MariaDb? {
      var newest := Reverse(files);
      assert forall k :: 0 <= k < |files| ==> newest[|files| - 1 - k] == files[k];
    } else {
      SameElements(SortNewest(files, log, files), files);
    }
  }

  lemma SameElements(a: seq<string>, b: seq<string>)
    requires multiset(a) == multiset(b)
    ensures |a| == |b| && forall k :: 0 <= k < |b| ==> b[k] in a
  {
    assert |multiset(a)| == |a| && |multiset(b)| == |b|;
    forall k | 0 <= k < |b| ensures b[k] in a {
      assert b[k] in multiset(b);
    }
  }

  /** With every file applied, rolling back that many plans every file once. */
  lemma PlanOfAll(db: DbType, files: seq<string>, log: Log)
    requires AllApplied(files, log)
    ensures Applied(files, log) == files && Pending(files, log) == []
    ensures var p := Plan(db, files, log, |files|, "");
            p.Selected? && |p.files| == |files| && forall k :: 0 <= k < |files| ==> files[k] in p.files
  {
    NothingPending(files, log);
    NewestHasAll(db, files, log);
    PlanIsNewest(db, files, log);
    hide NewestFirst, Applied, Pending, Plan;
  }

  lemma NothingPending(files: seq<string>, log: Log)
    requires AllApplied(files, log)
    ensures Applied(files, log) == files && Pending(files, log) == []
  {
    assert Prefix(files, log, |files|);
    PendingOfPrefix(files, log, |files|);
    hide Applied, Pending;
  }

  lemma PlanIsNewest(db: DbType, files: seq<string>, log: Log)
    requires |NewestFirst(db, files, log)| == |files|
    ensures Plan(db, files, log, |files|, "") == Selected(NewestFirst(db, files, log))
  {
    hide NewestFirst;
    TakeAll(NewestFirst(db, files, log));
  }

  /** A rollback of all of them that went through leaves nothing applied. */
  lemma DownCompletes(files: seq<string>, s: State, s': State, plan: seq<string>)
    requires Downed(s, s', plan, plan, Untouched) && forall k :: 0 <= k < |files| ==> files[k] in plan
    ensures NoneApplied(files, s'.log) && Pending(files, s'.log) == files
  {
    assert Prefix(files, s'.log, 0);
    PendingOfPrefix(files, s'.log, 0);
    assert files[0..] == files;
  }

  lemma BaselinedApplied(files: seq<string>, log: Log, log': Log, disk: Disk, hash: string -> string)
    requires Baselined(log, log', disk, hash)
    ensures AllApplied(files, log) <==> AllApplied(files, log')
    ensures Pending(files, log) == Pending(files, log')
  {
    SameKeys(files, log, log', false);
    assert forall f :: f in log <==> f in log.Keys;
    assert forall f :: f in log' <==> f in log'.Keys;
  }

  /** No call fails, and every file can be run and undone. */
  ghost predicate Smooth(a: Adapter)
    reads a`disk
  {
    (forall n :: a.fate(n).Fine?) && forall k :: 0 <= k < |a.files| ==> a.CanRun(a.files[k]) && a.HasDown(a.files[k])
  }

  /** No call fails, and every file can be undone. */
  ghost predicate Undoable(a: Adapter)
    reads a`disk
  {
    (forall n :: a.fate(n).Fine?) && forall k :: 0 <= k < |a.files| ==> a.HasDown(a.files[k])
  }

  lemma SmoothIs(a: Adapter, n: nat)
    ensures Smooth(a) ==> Undoable(a)
    ensures Undoable(a) ==> a.fate(n).Fine?
  {
  }

  lemma SmoothUp(a: Adapter, pending: seq<string>, applied: seq<string>, from: nat)
    requires Smooth(a) && a.UpTo(pending, applied, from, false) && forall f :: f in pending ==> f in a.files
    ensures applied == pending
  {
    forall i | 0 <= i < |pending| ensures a.CanRun(pending[i]) {
      assert pending[i] in pending;
    }
    a.EverythingGoes(pending, applied, from, false);
  }

  lemma SmoothDown(a: Adapter, plan: seq<string>, rolledBack: seq<string>, from: nat)
    requires Undoable(a) && a.DownTo(plan, rolledBack, from) && forall f :: f in plan ==> f in a.files
    ensures rolledBack == plan
  {
    forall i | 0 <= i < |plan| ensures a.HasDown(plan[i]) {
      assert plan[i] in plan;
    }
    a.EverythingUndone(plan, rolledBack, from);
  }

  lemma {:induction false} PendingAreFiles(files: seq<string>, log: Log)
    ensures forall f :: f in Pending(files, log) ==> f in files
    ensures forall f :: f in Applied(files, log) ==> f in files && f in log
    decreases |files|
  {
    if files != [] { PendingAreFiles(files[1..], log); }
  }

  /** Up without a target that went through. */
  method UpAll(a: Adapter) returns (ok: bool, applied: seq<string>)
    requires Distinct(a.files)
    modifies a`log, a`now, a`calls
    ensures ok ==> AllApplied(a.files, a.log)
    ensures ok ==> applied == Pending(a.files, old(a.log))
    ensures Smooth(a) ==> ok
  {
    ghost var s1, landed, from;
    ghost var log0 := a.log;
    hide Pending, Grown, Baselined, Step, AllApplied, Upped, Smooth, Undoable, Adapter.UpTo, SelectPending;
    ok, applied, s1, landed, from := a.Up("", "");
    BaselinedApplied(a.files, log0, s1.log, a.disk, a.hash);
    PendingAreFiles(a.files, log0);
    AllSelected(Pending(a.files, log0));
    SmoothIs(a, from - 1);
    if ok {
      UppedGrown(s1, a.Now(), applied, landed, a.disk, a.hash);
      UpCompletes(a.files, s1, a.Now(), applied, a.disk, a.hash);
    }
    if Smooth(a) { SmoothUp(a, Pending(a.files, log0), applied, from); }
  }

  lemma UppedGrown(s: State, s': State, applied: seq<string>, landed: Option<string>, disk: Disk,
                   hash: string -> string)
    requires Upped(s, s', applied, applied, landed, disk, hash)
    ensures landed.None? && Grown(s, s', applied, None, disk, hash)
  {
    hide Grown;
  }

  lemma AllSelected(pending: seq<string>)
    ensures SelectPending(pending, "", "") == Selected(pending)
  {
  }

  method DownAll(a: Adapter, count: nat) returns (ok: bool, rolledBack: seq<string>)
    requires Distinct(a.files) && AllApplied(a.files, a.log) && count == |a.files|
    modifies a`log, a`now, a`calls
    ensures ok ==> Pending(a.files, a.log) == a.files && |rolledBack| == |a.files|
    ensures Smooth(a) ==> ok
  {
    ghost var s1, left, from;
    ghost var log0 := a.log;
    hide Pending, Downed, Baselined, Step, Plan, AllApplied, Smooth, Undoable, Adapter.DownTo, NewestFirst;
    ok, rolledBack, s1, left, from := a.Rollback(count, "");
    BaselinedApplied(a.files, log0, s1.log, a.disk, a.hash);
    PlanOfAll(a.dbType, a.files, s1.log);
    PlanAreFiles(a.dbType, a.files, s1.log, count);
    SmoothIs(a, from - 1);
    if ok { DownCompletes(a.files, s1, a.Now(), rolledBack); }
    if Smooth(a) { SmoothDown(a, Plan(a.dbType, a.files, s1.log, count, "").files, rolledBack, from); }
  }

  lemma PlanAreFiles(db: DbType, files: seq<string>, log: Log, count: nat)
    ensures var p := Plan(db, files, log, count, ""); p.Selected? && forall f :: f in p.files ==> f in files
  {
    NewestAreApplied(db, files, log);
    PendingAreFiles(files, log);
  }

  lemma NewestAreApplied(db: DbType, files: seq<string>, log: Log)
    ensures |NewestFirst(db, files, log)| == |Applied(files, log)|
    ensures forall f :: f in NewestFirst(db, files, log) <==> f in Applied(files, log)
  {
    AppliedIn(files, log);
    var list, newest := Applied(files, log), NewestFirst(db, files, log);
    if db.MariaDb? {
      forall k | 0 <= k < |list| ensures list[k] in newest {
        assert newest[|list| - 1 - k] == list[k];
      }
    } else {
      SameElements(newest, list);
      SameElements(list, newest);
    }
  }

  /** Success means that every file is applied at the end, and the two counts
      compared last cannot differ, from any changelog to start with; a test in which
      no call fails, of files that can be run and undone, succeeds, and a failed one
      takes back what is applied if that can be done. */
  method RunUpDownUpTest(a: Adapter)
    returns (success: bool, mismatch: bool, up1: seq<string>, down: seq<string>, up2: seq<string>)
    requires Distinct(a.files)
    modifies a`log, a`now, a`calls
    ensures !mismatch
    ensures success ==> AllApplied(a.files, a.log) && up2 == a.files && |down| == |a.files|
    ensures success ==> up1 == Pending(a.files, old(a.log))
    ensures Smooth(a) ==> success
    ensures !success && Undoable(a) ==> NoneApplied(a.files, a.log)
  {
    hide Pending, Applied, Baselined, Mismatches, Unbaselined, OutOfOrder, Orphans, AllApplied, NoneApplied, Undoable,
         Smooth;
    success, mismatch, down, up2 := false, false, [], [];
    var up1Ok;
    up1Ok, up1 := UpAll(a);
    if up1Ok {
      var log1 := a.log;
      var status := a.Status(false);
      SmoothIs(a, a.calls - 1);
      BaselinedApplied(a.files, log1, a.log, a.disk, a.hash);
      if status.Some? {
        PlanOfAll(a.dbType, a.files, a.log);
        var downOk, up2Ok;
        downOk, down := DownAll(a, |status.value.applied|);
        if downOk {
          up2Ok, up2 := UpAll(a);
          mismatch := up2Ok && |down| != |up2|;
          success := up2Ok && !mismatch;
        }
      }
    }
    if !success { CleanUp(a); }
  }

  /** Roll back whatever is applied. */
  method CleanUp(a: Adapter)
    requires Distinct(a.files)
    modifies a`log, a`now, a`calls
    ensures Undoable(a) ==> NoneApplied(a.files, a.log)
  {
    hide Pending, Downed, Baselined, Step, Plan, Applied, Mismatches, Unbaselined, OutOfOrder, Orphans, Undoable,
         Adapter.DownTo, NoneApplied;
    var status := a.Status(false);
    SmoothIs(a, a.calls - 1);
    if status.Some? {
      ghost var s1, left, from;
      ghost var log0 := a.log;
      var ok, rolledBack;
      ok, rolledBack, s1, left, from := a.Rollback(|status.value.applied|, "");
      AppliedSame(a.files, log0, s1.log, a.disk, a.hash);
      PlanOfApplied(a.dbType, a.files, s1.log);
      PlanAreFiles(a.dbType, a.files, s1.log, |status.value.applied|);
      SmoothIs(a, from - 1);
      if Undoable(a) {
        var plan := Plan(a.dbType, a.files, s1.log, |status.value.applied|, "").files;
        SmoothDown(a, plan, rolledBack, from);
        TakenBack(a.files, s1, a.Now(), plan);
      }
    }
  }

  lemma AppliedSame(files: seq<string>, log: Log, log': Log, disk: Disk, hash: string -> string)
    requires Baselined(log, log', disk, hash)
    ensures Applied(files, log) == Applied(files, log')
  {
    SameKeys(files, log, log', false);
  }

  lemma {:induction false} AppliedHas(files: seq<string>, log: Log, k: nat)
    requires k < |files| && files[k] in log
    ensures files[k] in Applied(files, log)
    decreases k
  {
    if k > 0 {
      assert files[1..][k - 1] == files[k];
      AppliedHas(files[1..], log, k - 1);
    }
  }

  /** Rolling back as many as are applied plans them all. */
  lemma PlanOfApplied(db: DbType, files: seq<string>, log: Log)
    ensures var p := Plan(db, files, log, |Applied(files, log)|, "");
            p.Selected? && forall k :: 0 <= k < |files| && files[k] in log ==> files[k] in p.files
  {
    NewestAreApplied(db, files, log);
    TakeAll(NewestFirst(db, files, log));
    hide NewestFirst, Applied;
    forall k | 0 <= k < |files| && files[k] in log ensures files[k] in NewestFirst(db, files, log) {
      AppliedHas(files, log, k);
    }
  }

  lemma TakenBack(files: seq<string>, s: State, s': State, plan: seq<string>)
    requires Downed(s, s', plan, plan, Untouched)
    requires forall k :: 0 <= k < |files| && files[k] in s.log ==> files[k] in plan
    ensures NoneApplied(files, s'.log)
  {
  }
}
