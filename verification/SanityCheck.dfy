/** Sanity-checked up: pre-check, migration, post-check, and a rollback when the
    post-check fails.  Whatever fails in whichever phase, the changelog moves as
    it does under plain up. */
module SanityCheck {
  import opened Text
  import opened Changelog
  import opened Migrations
  import opened Adapter

  /** What the phases amounted to; Threw when the migration itself failed. */
  datatype SanityResult =
    | Skipped(success: bool)
    | Ran(success: bool, executed: bool, rolledBack: bool, critical: bool)
    | Threw

  predicate Succeeded(r: SanityResult) {
    !r.Threw? && r.success
  }

  /** Apply, then perhaps delete the row again. */
  lemma GrownBack(s: State, s1: State, s': State, f: string, disk: Disk, hash: string -> string)
    requires Grown(s, s1, [f], None, disk, hash) && f !in s.log && s'.now >= s1.now
    requires s'.log == s1.log || s'.log == s1.log - {f}
    ensures Grown(s, s', [], if f in s'.log then Some(f) else None, disk, hash)
    ensures f !in s'.log ==> s'.log == s.log
  {
    if f !in s'.log {
      assert forall g :: g in s'.log <==> g in s.log;
    }
  }

  lemma GrownWhile(s: State, s1: State, s': State, f: string, done: seq<string>, landed: Option<string>, disk: Disk,
                   hash: string -> string)
    requires s1.log == s.log && s1.now >= s.now && Grown(s1, s', done, landed, disk, hash)
    ensures Grown(s, s', done, landed, disk, hash)
  {
  }

  lemma GrownThen(s: State, s1: State, s': State, done: seq<string>, landed: Option<string>, disk: Disk,
                  hash: string -> string)
    requires s'.log == s1.log && s'.now >= s1.now && Grown(s, s1, done, landed, disk, hash)
    ensures Grown(s, s', done, landed, disk, hash)
  {
  }

  class SanityChecker {
    const enabled: bool
    const autoRollback: bool
    var preCheck: Option<bool>
    var migration: Option<bool>
    var postCheck: Option<bool>
    var rollback: Option<bool>

    constructor (enabled: bool, autoRollback: bool)
      ensures this.enabled == enabled && this.autoRollback == autoRollback
      ensures preCheck.None? && migration.None? && postCheck.None? && rollback.None?
    {
      this.enabled, this.autoRollback := enabled, autoRollback;
      preCheck, migration, postCheck, rollback := None, None, None, None;
    }

    /** The rollback that starts with call `from` succeeds. */
    ghost predicate Undone(a: Adapter, file: string, from: nat)
      requires file in a.disk
      reads a`disk
    {
      if a.sections(a.disk[file]).hasDown then a.Undoes(file, from) else a.dbType.MariaDb?
    }

    /** The rollback both adapters hand in: MariaDB's does nothing for a file
        without a Down section, MongoDB's fails. */
    method RollBack(a: Adapter, file: string) returns (ok: bool)
      requires file in a.disk
      modifies a`log, a`now, a`calls
      ensures a.now >= old(a.now) && (a.log == old(a.log) || a.log == old(a.log) - {file})
      ensures ok ==> a.log == if a.sections(a.disk[file]).hasDown then old(a.log) - {file} else old(a.log)
      ensures ok && !a.sections(a.disk[file]).hasDown ==> a.dbType.MariaDb?
      ensures ok <==> Undone(a, file, old(a.calls))
    {
      if a.dbType.MariaDb? && !a.sections(a.disk[file]).hasDown { return true; }
      ok := a.RollbackOne(file);
    }

    /** The post-check of a file just applied, and the rollback when it fails. */
    method PostCheck(a: Adapter, file: string) returns (r: SanityResult)
      requires file in a.disk && file in a.log && rollback.None?
      modifies `postCheck, `rollback, a`log, a`now, a`calls
      ensures a.now >= old(a.now) && (a.log == old(a.log) || a.log == old(a.log) - {file})
      ensures postCheck == Some(a.fate(old(a.calls)).Fine?)
      ensures rollback == if !postCheck.value && autoRollback then Some(Undone(a, file, old(a.calls) + 1)) else None
      ensures postCheck == Some(true) ==> a.calls == old(a.calls) + 1
      ensures r == if postCheck.value then Ran(true, true, false, false)
                   else Ran(false, true, rollback == Some(true), rollback == Some(false))
      ensures rollback.None? ==> a.log == old(a.log)
      ensures rollback == Some(true) ==>
                (file in a.log <==> a.dbType.MariaDb? && !a.sections(a.disk[file]).hasDown)
    {
      var post := a.Call();
      postCheck := Some(post.Fine?);
      if post.Fine? { return Ran(true, true, false, false); }
      var undone := false;
      if autoRollback {
        undone := RollBack(a, file);
        rollback := Some(undone);
      }
      return Ran(false, true, undone, autoRollback && !undone);
    }

    /** The calls before the post-check. */
    ghost function PostAt(a: Adapter, file: string, hasPreCheck: bool): nat
      reads a`disk
    {
      (if hasPreCheck then 1 else 0) + a.UpCalls(file)
    }

    method RunWithSanityCheck(a: Adapter, file: string, hasPreCheck: bool, hasPostCheck: bool) returns (r: SanityResult)
      requires file in a.disk && file !in a.log
      requires preCheck.None? && migration.None? && postCheck.None? && rollback.None?
      modifies this, a`log, a`now, a`calls
      ensures Grown(old(a.Now()), a.Now(), if Succeeded(r) then [file] else [],
                    if !Succeeded(r) && file in a.log then Some(file) else None, a.disk, a.hash)
      // switched off, the migration alone
      ensures !enabled ==> r == Skipped(a.Applies(file, old(a.calls)))
      ensures !enabled ==> preCheck.None? && migration.None? && postCheck.None? && rollback.None?
      // the pre-check is the first call, and nothing runs after it failed
      ensures enabled ==> preCheck == if hasPreCheck then Some(a.fate(old(a.calls)).Fine?) else None
      ensures preCheck == Some(false) ==>
                && r == Ran(false, false, false, false) && migration.None? && postCheck.None?
                && a.log == old(a.log) && a.calls == old(a.calls) + 1
      // then the migration, which throws what it fails with
      ensures enabled && preCheck != Some(false) ==>
                && migration == Some(a.Applies(file, old(a.calls) + if hasPreCheck then 1 else 0))
                && (r.Threw? <==> migration == Some(false))
      ensures r.Threw? ==>
                && postCheck.None? && rollback.None?
                && (file in a.log <==> a.Lands(file, old(a.calls) + if hasPreCheck then 1 else 0))
      // the post-check is the call right behind it
      ensures enabled && migration == Some(true) ==>
                postCheck == if hasPostCheck then Some(a.fate(old(a.calls) + PostAt(a, file, hasPreCheck)).Fine?)
                             else None
      ensures enabled && migration == Some(true) && postCheck != Some(false) ==>
                && r == Ran(true, true, false, false) && file in a.log && rollback.None?
                && a.calls == old(a.calls) + PostAt(a, file, hasPreCheck) + if hasPostCheck then 1 else 0
      // a failed post-check is followed by a rollback exactly when that is on
      ensures rollback == if postCheck == Some(false) && autoRollback
                          then Some(Undone(a, file, old(a.calls) + PostAt(a, file, hasPreCheck) + 1)) else None
      ensures postCheck == Some(false) ==> r == Ran(false, true, rollback == Some(true), rollback == Some(false))
      ensures postCheck == Some(false) && rollback.None? ==> file in a.log
      // "rolled back" means not recorded, but for a MariaDB file without a Down section
      ensures rollback == Some(true) ==>
                (file in a.log <==> a.dbType.MariaDb? && !a.sections(a.disk[file]).hasDown)
    {
      hide Grown, Adapter.Applies, Adapter.UpRuns, Adapter.UpCalls, Undone, Adapter.Lands;
      if !enabled {
        var up := a.ApplyOne(file);
        return Skipped(up);
      }
      ghost var s0 := a.Now();
      if hasPreCheck {
        var pre := a.Call();
        preCheck := Some(pre.Fine?);
        if !pre.Fine? {
          GrownStart(s0, a.disk, a.hash);
          GrownThen(s0, s0, a.Now(), [], None, a.disk, a.hash);
          return Ran(false, false, false, false);
        }
      }
      ghost var s1 := a.Now();
      r := Migrate(a, file, hasPostCheck);
      GrownWhile(s0, s1, a.Now(), file, if Succeeded(r) then [file] else [],
                 if !Succeeded(r) && file in a.log then Some(file) else None, a.disk, a.hash);
    }

    /** The phases behind the pre-check. */
    method Migrate(a: Adapter, file: string, hasPostCheck: bool) returns (r: SanityResult)
      requires file in a.disk && file !in a.log && migration.None? && postCheck.None? && rollback.None?
      modifies `migration, `postCheck, `rollback, a`log, a`now, a`calls
      ensures Grown(old(a.Now()), a.Now(), if Succeeded(r) then [file] else [],
                    if !Succeeded(r) && file in a.log then Some(file) else None, a.disk, a.hash)
      ensures migration == Some(a.Applies(file, old(a.calls))) && (r.Threw? <==> migration == Some(false))
      ensures r.Threw? ==>
                postCheck.None? && rollback.None? && (file in a.log <==> a.Lands(file, old(a.calls)))
      ensures migration == Some(true) ==>
                postCheck == if hasPostCheck then Some(a.fate(old(a.calls) + a.UpCalls(file)).Fine?) else None
      ensures migration == Some(true) && postCheck != Some(false) ==>
                && r == Ran(true, true, false, false) && file in a.log && rollback.None?
                && a.calls == old(a.calls) + a.UpCalls(file) + if hasPostCheck then 1 else 0
      ensures rollback == if postCheck == Some(false) && autoRollback
                          then Some(Undone(a, file, old(a.calls) + a.UpCalls(file) + 1)) else None
      ensures postCheck == Some(false) ==> r == Ran(false, true, rollback == Some(true), rollback == Some(false))
      ensures postCheck == Some(false) && rollback.None? ==> file in a.log
      ensures rollback == Some(true) ==>
                (file in a.log <==> a.dbType.MariaDb? && !a.sections(a.disk[file]).hasDown)
    {
      hide Grown, Adapter.Applies, Adapter.UpRuns, Adapter.UpCalls, Undone, Adapter.Lands;
      a.RunsThrough(file, a.calls);
      ghost var s1 := a.Now();
      var up := a.ApplyOne(file);
      ghost var s2 := a.Now();
      migration := Some(up);
      if !up { return Threw; }
      if hasPostCheck {
        r := PostCheck(a, file);
        if r.success {
          GrownThen(s1, s2, a.Now(), [file], None, a.disk, a.hash);
        } else {
          GrownBack(s1, s2, a.Now(), file, a.disk, a.hash);
        }
        return;
      }
      return Ran(true, true, false, false);
    }
  }

  /** A file with checks, run by a checker of its own. */
  method RunChecked(a: Adapter, file: string) returns (ok: bool)
    requires file in a.disk && file !in a.log
    modifies a`log, a`now, a`calls
    ensures ok <==> a.Goes(file, old(a.calls), true)
    ensures ok ==> file in a.log && a.calls == old(a.calls) + a.UpCalls(file) + a.PreCalls(file) + a.PostCalls(file)
    ensures Grown(old(a.Now()), a.Now(), if ok then [file] else [],
                  if !ok && file in a.log then Some(file) else None, a.disk, a.hash)
  {
    hide Grown, Adapter.Goes, Adapter.Applies, Adapter.UpRuns, Adapter.UpCalls, Adapter.Lands, SanityChecker.Undone;
    GoesWhen(a, file, a.calls);
    var sections := a.sections(a.disk[file]);
    var checker := new SanityChecker(true, a.autoRollback);
    var r := checker.RunWithSanityCheck(a, file, sections.preCheck, sections.postCheck);
    ok := Succeeded(r);
  }

  /** One file of a sanity-checked run: with checks through the checker, without
      them as under plain up. */
  method ApplyChecked(a: Adapter, file: string) returns (ok: bool)
    requires file !in a.log
    modifies a`log, a`now, a`calls
    ensures ok <==> a.Goes(file, old(a.calls), true)
    ensures ok ==> file in a.log && a.calls == old(a.calls) + a.UpCalls(file) + a.PreCalls(file) + a.PostCalls(file)
    // a file that cannot be read, or one of MariaDB without an Up section, is not even checked
    ensures file !in a.disk || (a.dbType.MariaDb? && !a.sections(a.disk[file]).hasUp) ==> a.calls == old(a.calls)
    ensures Grown(old(a.Now()), a.Now(), if ok then [file] else [],
                  if !ok && file in a.log then Some(file) else None, a.disk, a.hash)
  {
    hide Grown, Adapter.Goes, Adapter.Applies, Adapter.UpRuns, Adapter.UpCalls, Adapter.Lands, SanityChecker.Undone;
    GrownStart(a.Now(), a.disk, a.hash);
    GoesWhen(a, file, a.calls);
    if file !in a.disk { return false; }
    var sections := a.sections(a.disk[file]);
    if a.dbType.MariaDb? && !sections.hasUp { return false; }
    if sections.preCheck || sections.postCheck {
      ok := RunChecked(a, file);
    } else {
      ok := a.ApplyOne(file);
    }
  }

  lemma GoesWhen(a: Adapter, file: string, from: nat)
    ensures a.Goes(file, from, true) ==> file in a.disk && a.sections(a.disk[file]).hasUp
    ensures file in a.disk ==>
              var s := a.sections(a.disk[file]);
              var at := from + if s.preCheck then 1 else 0;
              && (a.Goes(file, from, true) <==>
                    (s.preCheck ==> a.fate(from).Fine?) && a.Applies(file, at)
                    && (s.postCheck ==> a.fate(at + a.UpCalls(file)).Fine?))
              && (!s.preCheck && !s.postCheck && a.Applies(file, from) ==>
                    a.UpRuns(file, from) && a.fate(from + a.UpCalls(file) - 1).Fine?)
  {
  }

  method ApplyAllChecked(a: Adapter, selected: seq<string>)
    returns (ok: bool, applied: seq<string>, ghost landed: Option<string>)
    requires Distinct(selected) && forall k :: 0 <= k < |selected| ==> selected[k] !in a.log
    modifies a`log, a`now, a`calls
    ensures Upped(old(a.Now()), a.Now(), selected, applied, landed, a.disk, a.hash)
    ensures a.UpTo(selected, applied, old(a.calls), true) && (ok <==> applied == selected)
    ensures ok ==> landed.None?
  {
    hide Grown, Distinct, Adapter.AllGo, Adapter.Goes, Adapter.Behind, Adapter.UpCalls, Adapter.PreCalls,
         Adapter.PostCalls;
    ghost var s1 := a.Now();
    ok, applied, landed := true, [], None;
    GrownStart(s1, a.disk, a.hash);
    a.NoneGo(a.calls, true);
    for i := 0 to |selected|
      invariant ok && landed.None? && applied == selected[..i] && Grown(s1, a.Now(), applied, None, a.disk, a.hash)
      invariant a.calls == a.Behind(applied, old(a.calls), true) && a.AllGo(applied, old(a.calls), true)
    {
      ghost var before := a.Now();
      var file := selected[i];
      NotYet(s1, before, selected, i, a.disk, a.hash);
      ok := ApplyChecked(a, file);
      landed := if !ok && file in a.log then Some(file) else None;
      GrownNext(s1, before, a.Now(), applied, file, ok, landed, a.disk, a.hash);
      if !ok { return; }
      a.AllGoNext(applied, file, old(a.calls), true);
      applied := applied + [file];
    }
  }

  /** Sanity-checked up is one of the steps that keep the changelog in order. */
  method UpWithSanityCheck(a: Adapter, target: string, only: string)
    returns (ok: bool, applied: seq<string>, ghost s1: State, ghost landed: Option<string>, ghost from: nat)
    requires Distinct(a.files)
    modifies a`log, a`now, a`calls
    ensures s1.now >= old(a.now) && Baselined(old(a.log), s1.log, a.disk, a.hash)
    ensures UpAfter(SelectPending(Pending(a.files, s1.log), target, only), s1, a.Now(), applied, landed, a.disk, a.hash)
    ensures only == "" ==> Step(a.dbType, a.files, Command.Up(target), a.disk, a.hash, old(a.Now()), a.Now())
    ensures from > old(a.calls) && a.AllFine(old(a.calls), from - 1)
    ensures var sel := SelectPending(Pending(a.files, s1.log), target, only);
            if a.fate(from - 1).Fine? && sel.Selected? then
              a.UpTo(sel.files, applied, from, true) && (ok <==> applied == sel.files) && (ok ==> landed.None?)
            else !ok && applied == [] && landed.None? && a.Now() == s1
  {
    hide SelectPending, Pending, Upped, Grown, Baselined, Step, Distinct, Applied, Mismatches, Unbaselined, OutOfOrder,
         Orphans, Adapter.AllGo, Adapter.Goes, Adapter.Behind;
    ghost var s0 := a.Now();
    var status := a.Status(false);
    s1, landed, applied, ok, from := a.Now(), None, [], false, a.calls;
    UpStarts(SelectPending(Pending(a.files, a.log), target, only), s1, a.disk, a.hash);
    if status.Some? {
      var sel := SelectPending(status.value.pending, target, only);
      if sel.Selected? {
        SelectedNew(a.files, a.log, target, only);
        ok, applied, landed := ApplyAllChecked(a, sel.files);
      }
    }
    if only == "" { StepUp(a.dbType, a.files, s0, s1, a.Now(), target, applied, landed, a.disk, a.hash); }
  }
}
