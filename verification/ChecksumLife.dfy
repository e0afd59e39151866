/** The life of a recorded checksum: over any run of commands it changes only
    where a person accepts an edit or rolls the file back, so an edited file
    shows. */
module ChecksumLife {
  import opened Text
  import opened Changelog
  import opened Migrations
  import opened Adapter

  /** Same files, same times: only checksums may differ. */
  ghost predicate SameTimes(log: Log, log': Log) {
    log'.Keys == log.Keys && forall f :: f in log ==> log'[f].appliedAt == log[f].appliedAt
  }

  lemma {:induction false} SameInsert(files: seq<string>, log: Log, log': Log, f: string, list: seq<string>)
    requires SameTimes(log, log') && f in log && f in log' && AllIn(list, log) && AllIn(list, log')
    ensures Insert(files, log, f, list) == Insert(files, log', f, list)
    decreases |list|
  {
    if list != [] {
      assert Newer(files, log, f, list[0]) == Newer(files, log', f, list[0]);
      SameInsert(files, log, log', f, list[1..]);
    }
  }

  lemma {:induction false} SameSort(files: seq<string>, log: Log, log': Log, list: seq<string>)
    requires SameTimes(log, log') && AllIn(list, log) && AllIn(list, log')
    ensures SortNewest(files, log, list) == SortNewest(files, log', list)
    decreases |list|
  {
    if list != [] {
      var n := |list| - 1;
      SameSort(files, log, log', list[..n]);
      SameInsert(files, log, log', list[n], SortNewest(files, log, list[..n]));
    }
  }

  /** Status does not change what would be rolled back. */
  lemma SamePlan(db: DbType, files: seq<string>, log: Log, log': Log, count: int, target: string)
    requires SameTimes(log, log')
    ensures Plan(db, files, log, count, target) == Plan(db, files, log', count, target)
  {
    SameKeys(files, log, log', false);
    AppliedIn(files, log);
    AppliedIn(files, log');
    if db.MongoDb? { SameSort(files, log, log', Applied(files, log)); }
  }

  lemma BaselinedTimes(log: Log, log': Log, disk: Disk, hash: string -> string)
    requires Baselined(log, log', disk, hash)
    ensures SameTimes(log, log')
  {
    assert forall f :: f in log <==> f in log.Keys;
  }

  /** The commands that may replace or drop f's checksum: accepting its content,
      and a rollback that plans it. */
  predicate Touches(db: DbType, files: seq<string>, cmd: Command, log: Log, f: string) {
    match cmd
    case Repair(g) => g == f
    case Down(count, target) =>
      var p := Plan(db, files, log, count, target);
      p.Selected? && f in p.files
    case _ => false
  }

  predicate Recorded(log: Log, f: string, row: Row) {
    f in log && log[f] == row && row.checksum.Some?
  }

  lemma BaselinedRecorded(log: Log, log': Log, disk: Disk, hash: string -> string, f: string, row: Row)
    requires Baselined(log, log', disk, hash) && Recorded(log, f, row)
    ensures Recorded(log', f, row)
  {
    assert f in log.Keys;
  }

  lemma RepairedRecorded(log: Log, log': Log, g: string, disk: Disk, hash: string -> string, f: string, row: Row)
    requires Repaired(log, log', g, disk, hash) && g != f && Recorded(log, f, row)
    ensures Recorded(log', f, row)
  {
  }

  lemma UppedRecorded(s: State, s': State, selected: seq<string>, done: seq<string>, landed: Option<string>,
                      disk: Disk, hash: string -> string, f: string, row: Row)
    requires Upped(s, s', selected, done, landed, disk, hash) && Recorded(s.log, f, row)
    ensures Recorded(s'.log, f, row)
  {
  }

  lemma DownedRecorded(s: State, s': State, plan: seq<string>, done: seq<string>, left: Leftover, f: string, row: Row)
    requires Downed(s, s', plan, done, left) && Recorded(s.log, f, row) && f !in plan
    ensures Recorded(s'.log, f, row)
  {
  }

  lemma StepRecorded(db: DbType, files: seq<string>, cmd: Command, disk: Disk, hash: string -> string, s: State,
                     s': State,
                     f: string, row: Row)
    requires Step(db, files, cmd, disk, hash, s, s') && !Touches(db, files, cmd, s.log, f) && Recorded(s.log, f, row)
    ensures Recorded(s'.log, f, row)
  {
    hide Upped, Downed, Baselined, Repaired, Plan, SelectPending, Recorded, SameTimes, Pending;
    match cmd
    case Look => BaselinedRecorded(s.log, s'.log, disk, hash, f, row);
    case Repair(g) => RepairedRecorded(s.log, s'.log, g, disk, hash, f, row);
    case Up(target) =>
      var s1: State, done, landed :|
        && s1.now >= s.now && Baselined(s.log, s1.log, disk, hash)
        && UpAfter(SelectPending(Pending(files, s1.log), target, ""), s1, s', done, landed, disk, hash);
      BaselinedRecorded(s.log, s1.log, disk, hash, f, row);
      var sel := SelectPending(Pending(files, s1.log), target, "");
      if sel.Selected? { UppedRecorded(s1, s', sel.files, done, landed, disk, hash, f, row); }
    case Down(count, target) =>
      var s1: State, done, left :|
        && s1.now >= s.now && Baselined(s.log, s1.log, disk, hash)
        && DownAfter(Plan(db, files, s1.log, count, target), s1, s', done, left);
      BaselinedRecorded(s.log, s1.log, disk, hash, f, row);
      BaselinedTimes(s.log, s1.log, disk, hash);
      SamePlan(db, files, s.log, s1.log, count, target);
      var p := Plan(db, files, s1.log, count, target);
      if p.Selected? { DownedRecorded(s1, s', p.files, done, left, f, row); }
  }

  // ---- whole runs ----

  /** Besides the commands that keep the changelog in order, up for one file and
      baseline. */
  datatype Act = Plain(cmd: Command) | UpOnly(target: string, only: string) | Baseline(list: seq<string>)

  ghost predicate ActStep(db: DbType, files: seq<string>, act: Act, disk: Disk, hash: string -> string, s: State,
                          s': State) {
    match act
    case Plain(cmd) => Step(db, files, cmd, disk, hash, s, s')
    case UpOnly(target, only) =>
      exists s1: State, done, landed ::
        && s1.now >= s.now && Baselined(s.log, s1.log, disk, hash)
        && UpAfter(SelectPending(Pending(files, s1.log), target, only), s1, s', done, landed, disk, hash)
    case Baseline(list) => MarkedAsApplied(s, s', list, disk, hash)
  }

  predicate ActTouches(db: DbType, files: seq<string>, act: Act, log: Log, f: string) {
    act.Plain? && Touches(db, files, act.cmd, log, f)
  }

  lemma ActRecorded(db: DbType, files: seq<string>, act: Act, disk: Disk, hash: string -> string, s: State, s': State,
                    f: string, row: Row)
    requires ActStep(db, files, act, disk, hash, s, s') && !ActTouches(db, files, act, s.log, f)
             && Recorded(s.log, f, row)
    ensures Recorded(s'.log, f, row)
  {
    hide Step, Upped, Baselined, SelectPending, Recorded, Pending, Touches, MarkedAsApplied;
    match act
    case Plain(cmd) => StepRecorded(db, files, cmd, disk, hash, s, s', f, row);
    case UpOnly(target, only) =>
      var s1: State, done, landed :|
        && s1.now >= s.now && Baselined(s.log, s1.log, disk, hash)
        && UpAfter(SelectPending(Pending(files, s1.log), target, only), s1, s', done, landed, disk, hash);
      BaselinedRecorded(s.log, s1.log, disk, hash, f, row);
      var sel := SelectPending(Pending(files, s1.log), target, only);
      if sel.Selected? { UppedRecorded(s1, s', sel.files, done, landed, disk, hash, f, row); }
    case Baseline(list) => MarkedRecorded(s, s', list, disk, hash, f, row);
  }

  lemma MarkedRecorded(s: State, s': State, list: seq<string>, disk: Disk, hash: string -> string, f: string, row: Row)
    requires MarkedAsApplied(s, s', list, disk, hash) && Recorded(s.log, f, row)
    ensures Recorded(s'.log, f, row)
  {
  }

  ghost predicate ActRun(db: DbType, files: seq<string>, hash: string -> string, acts: seq<Act>, disks: seq<Disk>,
                         ss: seq<State>) {
    && |disks| == |acts| && |ss| == |acts| + 1
    && forall k :: 0 <= k < |acts| ==> ActStep(db, files, acts[k], disks[k], hash, ss[k], ss[k + 1])
  }

  /** Over every run that neither accepts nor rolls back f, its row stays. */
  lemma {:induction false} RecordedStays(db: DbType, files: seq<string>, hash: string -> string, acts: seq<Act>,
                                         disks: seq<Disk>, ss: seq<State>, f: string, row: Row, k: nat)
    requires ActRun(db, files, hash, acts, disks, ss) && Recorded(ss[0].log, f, row) && k < |ss|
    requires forall j :: 0 <= j < k ==> !ActTouches(db, files, acts[j], ss[j].log, f)
    ensures Recorded(ss[k].log, f, row)
    decreases k
  {
    hide ActStep, ActTouches, Recorded;
    if k > 0 {
      RecordedStays(db, files, hash, acts, disks, ss, f, row, k - 1);
      ActRecorded(db, files, acts[k - 1], disks[k - 1], hash, ss[k - 1], ss[k], f, row);
    }
  }

  /** A file whose row holds the hash of `content`: as long as nobody accepts an
      edit of it or rolls it back, every later status reports it as edited
      exactly when what is on disk then hashes to something else. */
  lemma EditsShow(db: DbType, files: seq<string>, hash: string -> string, acts: seq<Act>, disks: seq<Disk>,
                  ss: seq<State>,
                  f: string, content: string, k: nat, disk: Disk)
    requires ActRun(db, files, hash, acts, disks, ss) && k < |ss| && f in files
    requires f in ss[0].log && ss[0].log[f].checksum == Some(hash(content))
    requires forall j :: 0 <= j < k ==> !ActTouches(db, files, acts[j], ss[j].log, f)
    ensures f in Mismatches(files, ss[k].log, disk, hash) <==> f in disk && hash(disk[f]) != hash(content)
  {
    RecordedStays(db, files, hash, acts, disks, ss, f, ss[0].log[f], k);
    MismatchesHold(files, ss[k].log, disk, hash);
    hide ActRun, ActTouches, Mismatches;
  }

  function One(f: string, row: Row): Log {
    map[f := row]
  }

  /** The exception: a rollback on MariaDB that failed in the Down section puts
      the row back without its checksum, and the next status adopts whatever is
      on disk, so an edit made before goes unnoticed. */
  lemma FailedDownForgets(f: string, row: Row, edited: string, hash: string -> string)
    requires row.checksum == Some(hash("x")) && hash(edited) != hash("x")
    ensures var t := row.appliedAt;
            var ss := [State(One(f, row), t), State(One(f, Row(t, None)), t),
                       State(One(f, Row(t, Some(hash(edited)))), t)];
            var disk: Disk := map[f := edited];
            && Run(MariaDb, [f], hash, [Command.Down(1, ""), Look], [disk, disk], ss)
            && Mismatches([f], ss[0].log, disk, hash) == [f] && Mismatches([f], ss[2].log, disk, hash) == []
  {
    hide Step, One;
    var t := row.appliedAt;
    var disk: Disk := map[f := edited];
    FailedDown(f, row, disk, hash);
    LookAdopts(f, t, edited, hash);
    OneMismatch(f, row, disk, hash);
    OneMismatch(f, Row(t, Some(hash(edited))), disk, hash);
  }

  lemma OneMismatch(f: string, row: Row, disk: Disk, hash: string -> string)
    requires row.checksum.Some? && f in disk
    ensures Mismatches([f], One(f, row), disk, hash) == if row.checksum.value != hash(disk[f]) then [f] else []
  {
    assert [f][1..] == [];
  }

  lemma LookAdopts(f: string, t: int, edited: string, hash: string -> string)
    ensures Step(MariaDb, [f], Look, map[f := edited], hash, State(One(f, Row(t, None)), t),
                 State(One(f, Row(t, Some(hash(edited)))), t))
  {
  }

  lemma FailedDown(f: string, row: Row, disk: Disk, hash: string -> string)
    ensures Step(MariaDb, [f], Command.Down(1, ""), disk, hash,
                 State(One(f, row), row.appliedAt), State(One(f, Row(row.appliedAt, None)), row.appliedAt))
  {
    var t := row.appliedAt;
    var s, s' := State(One(f, row), t), State(One(f, Row(t, None)), t);
    OnePlan(f, row);
    OneDowned(f, row);
    assert Baselined(s.log, s.log, disk, hash);
    hide Downed, Baselined, Plan, One;
    StepDown(MariaDb, [f], s, s, s', 1, "", [], Restored(Row(t, None)), disk, hash);
  }

  lemma OneDowned(f: string, row: Row)
    ensures var t := row.appliedAt;
            Downed(State(One(f, row), t), State(One(f, Row(t, None)), t), [f], [], Restored(Row(t, None)))
  {
  }

  lemma OnePlan(f: string, row: Row)
    ensures Plan(MariaDb, [f], One(f, row), 1, "") == Selected([f])
  {
    assert [f][1..] == [];
    assert Applied([f], One(f, row)) == [f];
  }
}
