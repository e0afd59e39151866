/** What every migration command keeps, whatever fails: the applied files stay a
    prefix of the file list, applied in file order. */
module Migrations {
  import opened Text
  import opened Changelog

  /** The changelog and the database's clock. */
  datatype State = State(log: Log, now: int)

  /** What `status` may write: missing checksums of files that can be read. */
  ghost predicate Baselined(log: Log, log': Log, disk: Disk, hash: string -> string) {
    && log'.Keys == log.Keys
    && forall f :: f in log ==>
         || log'[f] == log[f]
         || (log[f].checksum.None? && f in disk && log'[f] == log[f].(checksum := Some(hash(disk[f]))))
  }

  /** The files of `done` were recorded one after the other, and `landed` too if
      its row was written although the run reports it as failed. */
  ghost predicate Grown(s: State, s': State, done: seq<string>, landed: Option<string>, disk: Disk,
                        hash: string -> string) {
    && s.now <= s'.now
    && (forall f :: f in s'.log <==> f in s.log || f in done || landed == Some(f))
    && (forall f :: f in s.log ==> s'.log[f] == s.log[f])
    && (forall f :: f in s'.log && f !in s.log ==>
          && s.now <= s'.log[f].appliedAt <= s'.now
          && f in disk && s'.log[f].checksum == Some(hash(disk[f])))
    && (forall j, k :: 0 <= j < k < |done| && done[j] !in s.log && done[k] !in s.log ==>
          s'.log[done[j]].appliedAt <= s'.log[done[k]].appliedAt)
    && (landed.Some? && landed.value !in s.log ==>
          forall k :: 0 <= k < |done| && done[k] !in s.log ==>
            s'.log[done[k]].appliedAt <= s'.log[landed.value].appliedAt)
  }

  /** One way up went: a first part `done` of the selected files, stopped early
      by the next one unless all were done. */
  ghost predicate Upped(s: State, s': State, selected: seq<string>, done: seq<string>, landed: Option<string>,
                        disk: Disk, hash: string -> string)
  {
    && |done| <= |selected| && done == selected[..|done|]
    && (landed.Some? ==> |done| < |selected| && landed.value == selected[|done|])
    && Grown(s, s', done, landed, disk, hash)
  }

  /** What became of the row of the file that `down` failed on. */
  datatype Leftover = Untouched | Removed | Restored(row: Row)

  /** The rows of `done` are gone, the one of the file that failed may be. */
  ghost predicate Downed(s: State, s': State, plan: seq<string>, done: seq<string>, left: Leftover) {
    && s.now <= s'.now
    && |done| <= |plan| && done == plan[..|done|]
    && (!left.Untouched? ==> |done| < |plan|)
    && (left.Restored? ==> s.now <= left.row.appliedAt <= s'.now && left.row.checksum.None?)
    && (forall f :: f in s'.log <==> (f in s.log && f !in done && !(left.Removed? && f == plan[|done|]))
                                     || (left.Restored? && f == plan[|done|]))
    && (forall f :: f in s'.log ==>
          if left.Restored? && f == plan[|done|] then s'.log[f] == left.row else f in s.log && s'.log[f] == s.log[f])
  }

  // ---- the invariant ----

  /** The files were applied in file order, and no row is newer than the clock. */
  ghost predicate Timed(files: seq<string>, s: State) {
    InTime(files, s.log) && forall f :: f in s.log ==> s.log[f].appliedAt <= s.now
  }

  /** The files applied are the first n; for MongoDB, which rolls back by time,
      they were also applied in that order. */
  ghost predicate Ordered(db: DbType, files: seq<string>, s: State, n: nat) {
    Prefix(files, s.log, n) && (db.MongoDb? ==> Timed(files, s))
  }

  lemma BaselinedKeeps(db: DbType, files: seq<string>, s: State, s': State, n: nat, disk: Disk, hash: string -> string)
    requires Ordered(db, files, s, n) && Baselined(s.log, s'.log, disk, hash) && s'.now >= s.now
    ensures Ordered(db, files, s', n)
  {
    forall k | 0 <= k < |files| ensures files[k] in s'.log <==> k < n {
      assert files[k] in s'.log.Keys <==> files[k] in s.log.Keys;
    }
  }

  lemma UpKeeps(db: DbType, files: seq<string>, s: State, s': State, n: nat, m: nat, done: seq<string>,
                landed: Option<string>,
                disk: Disk, hash: string -> string) returns (n': nat)
    requires Distinct(files) && Ordered(db, files, s, n) && n <= m <= |files|
    requires Upped(s, s', files[n..m], done, landed, disk, hash)
    ensures Ordered(db, files, s', n') && n' == n + |done| + (if landed.Some? then 1 else 0)
  {
    n' := n + |done| + (if landed.Some? then 1 else 0);
    assert forall k :: 0 <= k < |done| ==> done[k] == files[n + k];
    assert landed.Some? ==> landed.value == files[n + |done|];
    forall k | 0 <= k < |files| ensures files[k] in s'.log <==> k < n' {
      if files[k] in done {
        var i :| 0 <= i < |done| && done[i] == files[k];
        assert files[n + i] == files[k];
      }
      if n <= k < n + |done| { assert done[k - n] == files[k]; }
    }
    forall j, k | db.MongoDb? && 0 <= j < k < |files| && files[j] in s'.log && files[k] in s'.log
      ensures s'.log[files[j]].appliedAt <= s'.log[files[k]].appliedAt
    {
      if j >= n {
        assert files[j] == done[j - n] && files[j] !in s.log && files[k] !in s.log;
        if k < n + |done| { assert files[k] == done[k - n]; }
      } else if k >= n {
        assert files[j] in s.log && files[k] !in s.log;
      }
    }
  }

  /** Which files a rollback of the last c of n takes back. */
  lemma PlannedFiles(files: seq<string>, n: nat, c: nat, done: seq<string>)
    requires Distinct(files) && c <= n <= |files| && |done| <= c && done == Reverse(files[..n])[..c][..|done|]
    ensures forall k :: 0 <= k < |files| ==> (files[k] in done <==> n - |done| <= k < n)
    ensures |done| < c ==> Reverse(files[..n])[..c][|done|] == files[n - |done| - 1]
  {
    var plan := Reverse(files[..n])[..c];
    assert forall k :: 0 <= k < |plan| ==> plan[k] == files[n - 1 - k];
    hide Reverse;
    forall k | 0 <= k < |files| ensures files[k] in done <==> n - |done| <= k < n {
      if files[k] in done {
        var i :| 0 <= i < |done| && done[i] == files[k];
        assert plan[i] == files[n - 1 - i];
      }
      if n - |done| <= k < n { assert done[n - 1 - k] == plan[n - 1 - k] == files[k]; }
    }
  }

  lemma DownKeeps(db: DbType, files: seq<string>, s: State, s': State, n: nat, c: nat, done: seq<string>,
                  left: Leftover) returns (n': nat)
    requires Distinct(files) && Ordered(db, files, s, n) && c <= n
    requires Downed(s, s', Reverse(files[..n])[..c], done, left)
    ensures Ordered(db, files, s', n')
    ensures n' == n - |done| - (if left.Removed? then 1 else 0)
  {
    n' := n - |done| - (if left.Removed? then 1 else 0);
    PlannedFiles(files, n, c, done);
    var failed := if left.Untouched? then "" else Reverse(files[..n])[..c][|done|];
    assert !left.Untouched? ==> failed == files[n - |done| - 1];
    DownPrefix(files, s, s', Reverse(files[..n])[..c], n, n', done, left, failed);
    DownTimes(db, files, s, s', Reverse(files[..n])[..c], n, done, left, failed);
  }

  lemma DownPrefix(files: seq<string>, s: State, s': State, plan: seq<string>, n: nat, n': nat, done: seq<string>,
                   left: Leftover,
                   failed: string)
    requires Distinct(files) && Prefix(files, s.log, n) && Downed(s, s', plan, done, left)
    requires n' == n - |done| - (if left.Removed? then 1 else 0)
    requires forall k :: 0 <= k < |files| ==> (files[k] in done <==> n - |done| <= k < n)
    requires !left.Untouched? ==> n > |done| && failed == plan[|done|] == files[n - |done| - 1]
    ensures Prefix(files, s'.log, n')
  {
    forall k | 0 <= k < |files| ensures files[k] in s'.log <==> k < n' {
      if !left.Untouched? { assert files[k] == failed <==> k == n - |done| - 1; }
    }
  }

  /** Only the row of a failed file is new, and it is of the newest file left. */
  lemma DownTimes(db: DbType, files: seq<string>, s: State, s': State, plan: seq<string>, n: nat, done: seq<string>,
                  left: Leftover,
                  failed: string)
    requires Distinct(files) && Ordered(db, files, s, n) && Downed(s, s', plan, done, left)
    requires forall k :: 0 <= k < |files| ==> (files[k] in done <==> n - |done| <= k < n)
    requires !left.Untouched? ==> n > |done| && failed == plan[|done|] == files[n - |done| - 1]
    ensures db.MongoDb? ==> Timed(files, s')
  {
    forall j, k | db.MongoDb? && 0 <= j < k < |files| && files[j] in s'.log && files[k] in s'.log
      ensures s'.log[files[j]].appliedAt <= s'.log[files[k]].appliedAt
    {
      if left.Restored? {
        assert files[j] == failed ==> j == n - |done| - 1;
      }
    }
  }

  // ---- commands and runs ----

  /** The commands that keep the changelog in order: status, up or sanity-checked
      up with an optional target, planned rollback, accepting an edited file. */
  datatype Command = Look | Up(target: string) | Down(count: int, target: string) | Repair(file: string)

  /** What accepting a file's content writes, if anything. */
  ghost predicate Repaired(log: Log, log': Log, f: string, disk: Disk, hash: string -> string) {
    log' == log || (f in log && f in disk && log' == log[f := log[f].(checksum := Some(hash(disk[f])))])
  }

  /** What went up after a selection; nothing when its target was not found. */
  ghost predicate UpAfter(sel: Selection, s: State, s': State, done: seq<string>, landed: Option<string>,
                          disk: Disk, hash: string -> string)
  {
    match sel
    case NotFound(_) => s' == s
    case Selected(selected) => Upped(s, s', selected, done, landed, disk, hash)
  }

  ghost predicate DownAfter(sel: Selection, s: State, s': State, done: seq<string>, left: Leftover) {
    match sel
    case NotFound(_) => s' == s
    case Selected(plan) => Downed(s, s', plan, done, left)
  }

  /** One command on files that were not touched while it ran, with a failure
      wherever it may happen. */
  ghost predicate Step(db: DbType, files: seq<string>, cmd: Command, disk: Disk, hash: string -> string, s: State,
                       s': State) {
    match cmd
    case Look => s'.now >= s.now && Baselined(s.log, s'.log, disk, hash)
    case Repair(f) => s'.now >= s.now && Repaired(s.log, s'.log, f, disk, hash)
    case Up(target) =>
      exists s1: State, done, landed ::
        && s1.now >= s.now && Baselined(s.log, s1.log, disk, hash)
        && UpAfter(SelectPending(Pending(files, s1.log), target, ""), s1, s', done, landed, disk, hash)
    case Down(count, target) =>
      exists s1: State, done, left ::
        && s1.now >= s.now && Baselined(s.log, s1.log, disk, hash)
        && DownAfter(Plan(db, files, s1.log, count, target), s1, s', done, left)
  }

  /** In order, both databases plan the same: the last applied files, backwards. */
  lemma PlanOfPrefix(db: DbType, files: seq<string>, s: State, n: nat, count: int, target: string) returns (c: nat)
    requires Distinct(files) && Ordered(db, files, s, n)
    ensures c <= n
    ensures var p := Plan(db, files, s.log, count, target); p.Selected? ==> p.files == Reverse(files[..n])[..c]
  {
    if db.MongoDb? { PlansAgree(files, s.log, count, target); }
    PendingOfPrefix(files, s.log, n);
    var newest := Reverse(files[..n]);
    SelectsFirstPart(newest, target);
    var p := Plan(db, files, s.log, count, target);
    c := if p.Selected? then |p.files| else 0;
  }

  lemma StepKeepsOrder(db: DbType, files: seq<string>, cmd: Command, disk: Disk, hash: string -> string,
                       s: State, s': State, n: nat) returns (n': nat)
    requires Distinct(files) && Ordered(db, files, s, n) && Step(db, files, cmd, disk, hash, s, s')
    ensures Ordered(db, files, s', n')
  {
    hide Ordered, Upped, Downed, Baselined, Plan, SelectPending, Repaired;
    n' := n;
    match cmd
    case Look => BaselinedKeeps(db, files, s, s', n, disk, hash);
    case Repair(f) => RepairedKeeps(db, files, s, s', n, f, disk, hash);
    case Up(target) =>
      var s1: State, done, landed :|
        && s1.now >= s.now && Baselined(s.log, s1.log, disk, hash)
        && UpAfter(SelectPending(Pending(files, s1.log), target, ""), s1, s', done, landed, disk, hash);
      BaselinedKeeps(db, files, s, s1, n, disk, hash);
      var sel := SelectPending(Pending(files, s1.log), target, "");
      if sel.Selected? {
        var m := SelectionOfPrefix(db, files, s1, n, target);
        n' := UpKeeps(db, files, s1, s', n, m, done, landed, disk, hash);
      }
    case Down(count, target) =>
      var s1: State, done, left :|
        && s1.now >= s.now && Baselined(s.log, s1.log, disk, hash)
        && DownAfter(Plan(db, files, s1.log, count, target), s1, s', done, left);
      BaselinedKeeps(db, files, s, s1, n, disk, hash);
      var p := Plan(db, files, s1.log, count, target);
      if p.Selected? {
        var c := PlanOfPrefix(db, files, s1, n, count, target);
        n' := DownKeeps(db, files, s1, s', n, c, done, left);
      }
  }

  lemma RepairedKeeps(db: DbType, files: seq<string>, s: State, s': State, n: nat, f: string, disk: Disk,
                      hash: string -> string)
    requires Ordered(db, files, s, n) && s'.now >= s.now && Repaired(s.log, s'.log, f, disk, hash)
    ensures Ordered(db, files, s', n)
  {
  }

  lemma SelectionOfPrefix(db: DbType, files: seq<string>, s: State, n: nat, target: string) returns (m: nat)
    requires Ordered(db, files, s, n)
    ensures var sel := SelectPending(Pending(files, s.log), target, "");
            n <= m <= |files| && (sel.Selected? ==> sel.files == files[n..m])
  {
    PendingOfPrefix(files, s.log, n);
    SelectsFirstPart(files[n..], target);
    var sel := SelectPending(Pending(files, s.log), target, "");
    m := if sel.Selected? then n + |sel.files| else n;
    if sel.Selected? { assert files[n..][..|sel.files|] == files[n..m]; }
  }

  /** A run: any commands one after the other, each on the files as they are then. */
  ghost predicate Run(db: DbType, files: seq<string>, hash: string -> string, cmds: seq<Command>, disks: seq<Disk>,
                      ss: seq<State>) {
    && |disks| == |cmds| && |ss| == |cmds| + 1
    && forall k :: 0 <= k < |cmds| ==> Step(db, files, cmds[k], disks[k], hash, ss[k], ss[k + 1])
  }

  /** Prefix safety: over every run, on either database, whatever fails, the
      applied files stay a prefix of the file list, so the consistency gate never
      finds one out of order. */
  lemma {:induction false} PrefixSafety(db: DbType, files: seq<string>, hash: string -> string,
                                        cmds: seq<Command>, disks: seq<Disk>, ss: seq<State>, n: nat)
    requires Distinct(files) && Run(db, files, hash, cmds, disks, ss) && Ordered(db, files, ss[0], n)
    ensures forall k :: 0 <= k < |ss| ==> OutOfOrder(files, ss[k].log, false) == []
    decreases |cmds|
  {
    hide Step, Ordered;
    assert OutOfOrder(files, ss[0].log, false) == [] by { OrderedNotOut(db, files, ss[0], n); }
    if cmds != [] {
      var n' := StepKeepsOrder(db, files, cmds[0], disks[0], hash, ss[0], ss[1], n);
      assert forall k :: 0 <= k < |cmds| - 1 ==> cmds[1..][k] == cmds[k + 1] && disks[1..][k] == disks[k + 1];
      assert forall k :: 0 <= k < |ss| - 1 ==> ss[1..][k] == ss[k + 1];
      PrefixSafety(db, files, hash, cmds[1..], disks[1..], ss[1..], n');
      forall k | 0 < k < |ss| ensures OutOfOrder(files, ss[k].log, false) == [] {
        assert ss[1..][k - 1] == ss[k];
      }
    }
  }

  lemma OrderedNotOut(db: DbType, files: seq<string>, s: State, n: nat)
    requires Ordered(db, files, s, n)
    ensures OutOfOrder(files, s.log, false) == []
  {
    PendingOfPrefix(files, s.log, n);
  }

  // ---- exactly when MongoDB keeps the prefix ----

  /** A rollback without errors: all that was planned is gone. */
  ghost predicate RolledBack(db: DbType, files: seq<string>, s: State, s': State, count: int, target: string) {
    var p := Plan(db, files, s.log, count, target);
    p.Selected? && Downed(s, s', p.files, p.files, Untouched)
  }

  ghost predicate KeepsPrefix(files: seq<string>, s: State) {
    exists n :: Prefix(files, s.log, n)
  }

  /** In time, every rollback keeps the prefix. */
  lemma InTimeKeeps(files: seq<string>, s: State, s': State, n: nat, count: int, target: string)
    requires Distinct(files) && Prefix(files, s.log, n) && InTime(files, s.log)
    requires RolledBack(MongoDb, files, s, s', count, target)
    ensures KeepsPrefix(files, s')
  {
    hide Plan, Downed, Prefix, InTime;
    PlansAgree(files, s.log, count, target);
    var c := PlanOfPrefix(MariaDb, files, s, n, count, target);
    var plan := Plan(MariaDb, files, s.log, count, target).files;
    var m := DownKeeps(MariaDb, files, s, s', n, c, plan, Untouched);
  }

  lemma {:induction false} OnceOnly(list: seq<string>, x: string)
    requires Distinct(list)
    ensures multiset(list)[x] <= 1
    decreases |list|
  {
    if list != [] {
      var n := |list| - 1;
      OnceOnly(list[..n], x);
      assert list == list[..n] + [list[n]];
      if list[n] == x { assert x !in multiset(list[..n]); }
    }
  }

  lemma PermutedDistinct(list: seq<string>, r: seq<string>, i: nat, j: nat)
    requires Distinct(list) && multiset(r) == multiset(list) && i < j < |r|
    ensures r[i] != r[j]
  {
    OnceOnly(list, r[i]);
    assert r == r[..i + 1] + r[i + 1..];
    assert r[i] in multiset(r[..i + 1]) && r[j] in multiset(r[i + 1..]) by {
      assert r[..i + 1][i] == r[i] && r[i + 1..][j - i - 1] == r[j];
    }
    assert multiset(r) == multiset(r[..i + 1]) + multiset(r[i + 1..]);
  }

  /** The state after the newest c files are taken back. */
  function Without(s: State, plan: seq<string>): State {
    State(map f | f in s.log && f !in plan :: s.log[f], s.now)
  }

  lemma WithoutIsDown(s: State, plan: seq<string>)
    ensures Downed(s, Without(s, plan), plan, plan, Untouched)
  {
    assert plan[..|plan|] == plan;
  }

  /** When taking back c files, of which the first c - 1 are the last files, leaves a
      prefix, the last of them is the file before these. */
  lemma NextIsLast(files: seq<string>, s: State, n: nat, r: seq<string>, c: nat, m: nat)
    requires Distinct(files) && Prefix(files, s.log, n) && c < n == |r| && multiset(r) == multiset(files[..n])
    requires forall i :: 0 <= i < c ==> r[i] == files[n - 1 - i]
    requires Prefix(files, Without(s, r[..c + 1]).log, m)
    ensures r[c] == files[n - 1 - c]
  {
    var gone := r[..c + 1];
    assert r[c] in multiset(r);
    var k :| 0 <= k < n && files[..n][k] == r[c];
    assert gone[c] == r[c] == files[k];
    assert files[k] !in Without(s, gone).log;
    var last := files[n - 1 - c];
    forall i | 0 <= i < c ensures gone[i] != last {
      assert gone[i] == r[i];
    }
    assert last in gone ==> r[c] == last;
    assert last in Without(s, gone).log <==> last !in gone;
    if k >= n - c {
      assert Distinct(files[..n]) by { assert forall j :: 0 <= j < n ==> files[..n][j] == files[j]; }
      PermutedDistinct(files[..n], r, n - 1 - k, c);
    }
  }

  lemma AllLast(files: seq<string>, s: State, n: nat, r: seq<string>, c: nat)
    requires Distinct(files) && Prefix(files, s.log, n) && c <= n == |r| && multiset(r) == multiset(files[..n])
    requires forall i :: 0 < i <= n ==> KeepsPrefix(files, Without(s, r[..i]))
    ensures forall i :: 0 <= i < c ==> r[i] == files[n - 1 - i]
    decreases c
  {
    if c > 0 {
      hide Distinct, Prefix;
      AllLast(files, s, n, r, c - 1);
      assert KeepsPrefix(files, Without(s, r[..c]));
      var m :| Prefix(files, Without(s, r[..c]).log, m);
      NextIsLast(files, s, n, r, c - 1, m);
    }
  }

  /** When every rollback keeps the prefix, the files were applied in file order. */
  lemma KeepsInTime(files: seq<string>, s: State, n: nat)
    requires Distinct(files) && Prefix(files, s.log, n)
    requires forall count, s' :: RolledBack(MongoDb, files, s, s', count, "") ==> KeepsPrefix(files, s')
    ensures InTime(files, s.log)
  {
    PendingOfPrefix(files, s.log, n);
    AppliedIn(files, s.log);
    var list := Applied(files, s.log);
    var r := SortNewest(files, s.log, list);
    SameLength(files, s.log);
    hide SortNewest, Distinct, Prefix, KeepsPrefix, InTime, Downed, Without;
    assert |list| == n && |r| == n;
    forall i | 0 < i <= n ensures KeepsPrefix(files, Without(s, r[..i])) {
      assert Take(r, i) == r[..i];
      WithoutIsDown(s, r[..i]);
      assert RolledBack(MongoDb, files, s, Without(s, r[..i]), i, "");
    }
    AllLast(files, s, n, r, n);
    assert r == Reverse(list);
    ReversedInTime(files, s.log);
  }

  /** From a prefix, every MongoDB rollback without errors, for every count, leaves a
      prefix if and only if the files were applied in file order. */
  lemma MongoKeepsPrefixExactly(files: seq<string>, s: State, n: nat)
    requires Distinct(files) && Prefix(files, s.log, n)
    ensures InTime(files, s.log)
            <==> forall count, s' :: RolledBack(MongoDb, files, s, s', count, "") ==> KeepsPrefix(files, s')
  {
    hide Prefix, InTime, RolledBack, KeepsPrefix, Distinct;
    if InTime(files, s.log) {
      forall count, s' | RolledBack(MongoDb, files, s, s', count, "") ensures KeepsPrefix(files, s') {
        InTimeKeeps(files, s, s', n, count, "");
      }
    } else if forall count, s' :: RolledBack(MongoDb, files, s, s', count, "") ==> KeepsPrefix(files, s') {
      KeepsInTime(files, s, n);
    }
  }

  /** Without the times in order a MongoDB project loses the prefix: b, applied
      before a, stays while a is rolled back. */
  lemma MongoBreaksPrefix(a: string, b: string, hash: string -> string)
    requires a != b
    ensures var files, row1, row2 := [a, b], Row(1, None), Row(2, None);
            var s, s' := State(map[a := row2, b := row1], 2), State(map[b := row1], 2);
            && Prefix(files, s.log, 2) && !InTime(files, s.log)
            && Run(MongoDb, files, hash, [Command.Down(1, "")], [map[]], [s, s'])
            && OutOfOrder(files, s'.log, false) == [b]
  {
    var files, row1, row2 := [a, b], Row(1, None), Row(2, None);
    var s, s' := State(map[a := row2, b := row1], 2), State(map[b := row1], 2);
    TwoOut(a, b, s'.log);
    TwoPlan(a, b, s.log);
    TwoDown(a, b, s, s', hash);
    assert files[0] == a && files[1] == b;
    hide OutOfOrder, Plan, Step;
    assert !InTime(files, s.log) by { assert files[0] in s.log && files[1] in s.log; }
  }

  lemma TwoOut(a: string, b: string, log: Log)
    requires a != b && log == map[b := Row(1, None)]
    ensures OutOfOrder([a, b], log, false) == [b]
  {
    assert [a, b][1..] == [b] && [b][1..] == [];
    assert OutOfOrder([], log, true) == [];
    assert OutOfOrder([b], log, true) == [b];
  }

  lemma TwoDown(a: string, b: string, s: State, s': State, hash: string -> string)
    requires a != b && s == State(map[a := Row(2, None), b := Row(1, None)], 2)
             && s' == State(map[b := Row(1, None)], 2)
    requires Plan(MongoDb, [a, b], s.log, 1, "") == Selected([a])
    ensures Step(MongoDb, [a, b], Command.Down(1, ""), map[], hash, s, s')
  {
    hide Plan;
    assert Baselined(s.log, s.log, map[], hash);
    assert Downed(s, s', [a], [a], Untouched);
    assert DownAfter(Plan(MongoDb, [a, b], s.log, 1, ""), s, s', [a], Untouched);
  }

  lemma TwoPlan(a: string, b: string, log: Log)
    requires a != b && log == map[a := Row(2, None), b := Row(1, None)]
    ensures Plan(MongoDb, [a, b], log, 1, "") == Selected([a])
  {
    var files := [a, b];
    AppliedIn(files, log);
    TwoApplied(a, b, log);
    TwoSorted(a, b, log);
    hide Applied, SortNewest;
    assert [a, b][..1] == [a];
  }

  lemma TwoApplied(a: string, b: string, log: Log)
    requires a in log && b in log
    ensures Applied([a, b], log) == [a, b]
  {
    assert [a, b][1..] == [b] && [b][1..] == [];
    assert Applied([], log) == [];
    assert Applied([b], log) == [b];
  }

  lemma TwoSorted(a: string, b: string, log: Log)
    requires a != b && log == map[a := Row(2, None), b := Row(1, None)]
    ensures AllIn([a, b], log) && SortNewest([a, b], log, [a, b]) == [a, b]
  {
    var files := [a, b];
    assert files[..1] == [a] && [a][..0] == [] && [a][1..] == [];
    var none: seq<string> := [];
    assert SortNewest(files, log, none) == none;
    assert SortNewest(files, log, [a]) == [a] + none == [a];
    assert !Newer(files, log, b, a);
    assert Insert(files, log, b, none) == [b] + none == [b];
    assert Insert(files, log, b, [a]) == [a] + [b];
  }
}
