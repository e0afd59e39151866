/** The two database adapters: status, up, sanity-checked up, rollback and down,
    every database call of which may be refused, or be carried out and yet
    reported as failed. */
module Adapter {
  import opened Text
  import opened Changelog
  import opened Migrations

  /** What becomes of one database call: done, refused, or done with its answer lost. */
  datatype Fate = Fine | Refused | Lost

  /** What a migration file holds: an Up section, statements in it, a Down
      section, sanity checks.  For MongoDB, the functions the module exports. */
  datatype Sections = Sections(hasUp: bool, upRuns: bool, hasDown: bool, preCheck: bool, postCheck: bool)

  datatype StatusReport = StatusReport(pending: seq<string>, applied: seq<string>, mismatches: seq<string>,
                                       baselined: seq<string>, outOfOrder: seq<string>, orphaned: set<string>)

  /** R__ files are repeatable migrations and none of a versioned project's. */
  predicate IsRepeatable(file: string) {
    |file| >= 3 && file[..3] == "R__"
  }

  function Orphans(files: seq<string>, log: Log): set<string> {
    set f | f in log && f !in files && !IsRepeatable(f)
  }

  /** The lists depend on which files have a row, and on nothing in the rows. */
  lemma {:induction false} SameKeys(files: seq<string>, log: Log, log': Log, seenPending: bool)
    requires log.Keys == log'.Keys
    ensures Pending(files, log) == Pending(files, log') && Applied(files, log) == Applied(files, log')
    ensures OutOfOrder(files, log, seenPending) == OutOfOrder(files, log', seenPending)
    ensures Orphans(files, log) == Orphans(files, log')
    decreases |files|
  {
    assert forall f :: f in log <==> f in log.Keys;
    assert forall f :: f in log' <==> f in log'.Keys;
    assert Orphans(files, log) == Orphans(files, log');
    if files != [] {
      SameKeys(files[1..], log, log', if files[0] in log then seenPending else true);
    }
  }

  /** The first i files went through status, the others' rows are untouched. */
  /** A row without a file is orphaned, unless its name starts with R__. */
  lemma OrphansAre(files: seq<string>, log: Log, f: string)
    ensures f in Orphans(files, log) <==> f in log && f !in files && forall rest :: f != "R__" + rest
  {
    if IsRepeatable(f) { assert f == "R__" + f[3..]; }
  }

  ghost predicate Marked(files: seq<string>, i: nat, rows: Log, log: Log, disk: Disk, hash: string -> string,
                         readOnly: bool)
    requires i <= |files|
  {
    && Baselined(rows, log, disk, hash) && (readOnly ==> log == rows)
    && (forall k :: i <= k < |files| && files[k] in rows ==> log[files[k]] == rows[files[k]])
    && (!readOnly ==> forall k :: 0 <= k < i ==> !LacksChecksum(files[k], log, disk))
  }

  // ---- the lists, once the first i files have gone through ----

  ghost predicate ListedPending(files: seq<string>, i: nat, rows: Log, list: seq<string>)
    requires i <= |files|
  {
    list + Pending(files[i..], rows) == Pending(files, rows)
  }

  ghost predicate ListedApplied(files: seq<string>, i: nat, rows: Log, list: seq<string>)
    requires i <= |files|
  {
    list + Applied(files[i..], rows) == Applied(files, rows)
  }

  ghost predicate ListedMismatches(files: seq<string>, i: nat, rows: Log, disk: Disk, hash: string -> string,
                                   list: seq<string>)
    requires i <= |files|
  {
    list + Mismatches(files[i..], rows, disk, hash) == Mismatches(files, rows, disk, hash)
  }

  ghost predicate ListedBaselined(files: seq<string>, i: nat, rows: Log, disk: Disk, readOnly: bool, list: seq<string>)
    requires i <= |files|
  {
    if readOnly then list == [] else list + Unbaselined(files[i..], rows, disk) == Unbaselined(files, rows, disk)
  }

  ghost predicate ListedOutOfOrder(files: seq<string>, i: nat, rows: Log, seenPending: bool, list: seq<string>)
    requires i <= |files|
  {
    list + OutOfOrder(files[i..], rows, seenPending) == OutOfOrder(files, rows, false)
  }

  function AddIf(list: seq<string>, f: string, add: bool): seq<string> {
    if add then list + [f] else list
  }

  lemma Grows(list: seq<string>, f: string, add: bool, rest: seq<string>)
    ensures list + ((if add then [f] else []) + rest) == AddIf(list, f, add) + rest
  {
  }

  lemma PendingNext(files: seq<string>, i: nat, rows: Log, list: seq<string>)
    requires i < |files| && ListedPending(files, i, rows, list)
    ensures ListedPending(files, i + 1, rows, AddIf(list, files[i], files[i] !in rows))
  {
    assert files[i..][1..] == files[i + 1..];
    Grows(list, files[i], files[i] !in rows, Pending(files[i + 1..], rows));
  }

  lemma AppliedNext(files: seq<string>, i: nat, rows: Log, list: seq<string>)
    requires i < |files| && ListedApplied(files, i, rows, list)
    ensures ListedApplied(files, i + 1, rows, AddIf(list, files[i], files[i] in rows))
  {
    assert files[i..][1..] == files[i + 1..];
    Grows(list, files[i], files[i] in rows, Applied(files[i + 1..], rows));
  }

  lemma MismatchesNext(files: seq<string>, i: nat, rows: Log, disk: Disk, hash: string -> string, list: seq<string>)
    requires i < |files| && ListedMismatches(files, i, rows, disk, hash, list)
    ensures ListedMismatches(files, i + 1, rows, disk, hash, AddIf(list, files[i], Differs(files[i], rows, disk, hash)))
  {
    hide Differs;
    assert files[i..][1..] == files[i + 1..];
    Grows(list, files[i], Differs(files[i], rows, disk, hash), Mismatches(files[i + 1..], rows, disk, hash));
  }

  lemma BaselinedNext(files: seq<string>, i: nat, rows: Log, disk: Disk, readOnly: bool, list: seq<string>)
    requires i < |files| && ListedBaselined(files, i, rows, disk, readOnly, list)
    ensures ListedBaselined(files, i + 1, rows, disk, readOnly,
                            AddIf(list, files[i], !readOnly && LacksChecksum(files[i], rows, disk)))
  {
    hide LacksChecksum;
    assert files[i..][1..] == files[i + 1..];
    Grows(list, files[i], LacksChecksum(files[i], rows, disk), Unbaselined(files[i + 1..], rows, disk));
  }

  lemma OutOfOrderNext(files: seq<string>, i: nat, rows: Log, seenPending: bool, list: seq<string>)
    requires i < |files| && ListedOutOfOrder(files, i, rows, seenPending, list)
    ensures ListedOutOfOrder(files, i + 1, rows, seenPending || files[i] !in rows,
                             AddIf(list, files[i], files[i] in rows && seenPending))
  {
    assert files[i..][1..] == files[i + 1..];
    var later := OutOfOrder(files[i + 1..], rows, seenPending || files[i] !in rows);
    Grows(list, files[i], files[i] in rows && seenPending, later);
    if files[i] !in rows { assert list + later == OutOfOrder(files, rows, false); }
  }

  lemma ListsNext(files: seq<string>, i: nat, rows: Log, disk: Disk, hash: string -> string, readOnly: bool,
                  seenPending: bool,
                  r: StatusReport)
    requires i < |files| && Listed(files, i, rows, disk, hash, readOnly, seenPending, r)
    ensures var f := files[i];
            Listed(files, i + 1, rows, disk, hash, readOnly, seenPending || f !in rows,
                   StatusReport(AddIf(r.pending, f, f !in rows), AddIf(r.applied, f, f in rows),
                                AddIf(r.mismatches, f, Differs(f, rows, disk, hash)),
                                AddIf(r.baselined, f, !readOnly && LacksChecksum(f, rows, disk)),
                                AddIf(r.outOfOrder, f, f in rows && seenPending), r.orphaned))
  {
    hide ListedPending, ListedApplied, ListedMismatches, ListedBaselined, ListedOutOfOrder, AddIf, Differs,
         LacksChecksum;
    PendingNext(files, i, rows, r.pending);
    AppliedNext(files, i, rows, r.applied);
    MismatchesNext(files, i, rows, disk, hash, r.mismatches);
    BaselinedNext(files, i, rows, disk, readOnly, r.baselined);
    OutOfOrderNext(files, i, rows, seenPending, r.outOfOrder);
  }

  ghost predicate Listed(files: seq<string>, i: nat, rows: Log, disk: Disk, hash: string -> string, readOnly: bool,
                         seenPending: bool, r: StatusReport)
    requires i <= |files|
  {
    && ListedPending(files, i, rows, r.pending) && ListedApplied(files, i, rows, r.applied)
    && ListedMismatches(files, i, rows, disk, hash, r.mismatches)
    && ListedBaselined(files, i, rows, disk, readOnly, r.baselined)
    && ListedOutOfOrder(files, i, rows, seenPending, r.outOfOrder)
  }

  lemma NotRecorded(f: string, rows: Log, disk: Disk, hash: string -> string)
    requires f !in rows
    ensures !Differs(f, rows, disk, hash) && !LacksChecksum(f, rows, disk)
  {
  }

  lemma ListsStart(files: seq<string>, rows: Log, disk: Disk, hash: string -> string, readOnly: bool)
    ensures Listed(files, 0, rows, disk, hash, readOnly, false, StatusReport([], [], [], [], [], {}))
  {
    assert files[0..] == files;
  }

  lemma ListsEnd(files: seq<string>, rows: Log, disk: Disk, hash: string -> string, readOnly: bool, seenPending: bool,
                 r: StatusReport)
    requires Listed(files, |files|, rows, disk, hash, readOnly, seenPending, r)
    ensures r == StatusReport(Pending(files, rows), Applied(files, rows), Mismatches(files, rows, disk, hash),
                              if readOnly then [] else Unbaselined(files, rows, disk),
                              OutOfOrder(files, rows, false), r.orphaned)
  {
    assert files[|files|..] == [];
  }

  lemma MarkedStart(files: seq<string>, rows: Log, disk: Disk, hash: string -> string, readOnly: bool)
    ensures Marked(files, 0, rows, rows, disk, hash, readOnly)
  {
  }

  lemma MarkedHere(files: seq<string>, i: nat, rows: Log, log: Log, disk: Disk, hash: string -> string, readOnly: bool)
    requires i < |files| && Marked(files, i, rows, log, disk, hash, readOnly)
    ensures files[i] in rows <==> files[i] in log
    ensures files[i] in rows ==> log[files[i]] == rows[files[i]]
  {
    assert files[i] in rows.Keys <==> files[i] in log.Keys;
  }

  lemma MarkedBaselines(files: seq<string>, i: nat, rows: Log, log: Log, disk: Disk, hash: string -> string,
                        readOnly: bool)
    requires i <= |files| && Marked(files, i, rows, log, disk, hash, readOnly)
    ensures Baselined(rows, log, disk, hash) && rows.Keys == log.Keys && (readOnly ==> log == rows)
    ensures !readOnly ==> forall k :: 0 <= k < i ==> !LacksChecksum(files[k], log, disk)
  {
  }

  lemma MarkedNext(files: seq<string>, i: nat, rows: Log, log: Log, log': Log, disk: Disk, hash: string -> string,
                   readOnly: bool, ok: bool)
    requires Distinct(files) && i < |files| && Marked(files, i, rows, log, disk, hash, readOnly)
    requires log' == log || (!readOnly && LacksChecksum(files[i], rows, disk)
                             && log' == log[files[i] := rows[files[i]].(checksum := Some(hash(disk[files[i]])))])
    requires ok && !readOnly ==> files[i] !in rows || !LacksChecksum(files[i], log', disk)
    ensures ok ==> Marked(files, i + 1, rows, log', disk, hash, readOnly)
    ensures Baselined(rows, log', disk, hash) && (readOnly ==> log' == rows)
  {
    assert log'.Keys == rows.Keys;
  }

  // ---- what a run of single steps amounts to ----

  /** One more file: recorded, or the one the run stopped at. */
  lemma GrownNext(s: State, s1: State, s': State, done: seq<string>, f: string, ok: bool, landed: Option<string>,
                  disk: Disk, hash: string -> string)
    requires Grown(s, s1, done, None, disk, hash) && f !in s1.log
    requires Grown(s1, s', if ok then [f] else [], landed, disk, hash) && (landed.Some? ==> landed.value == f && !ok)
    ensures Grown(s, s', if ok then done + [f] else done, landed, disk, hash)
  {
  }

  lemma GrownStart(s: State, disk: Disk, hash: string -> string)
    ensures Grown(s, s, [], None, disk, hash)
  {
  }

  lemma UpStarts(sel: Selection, s: State, disk: Disk, hash: string -> string)
    ensures UpAfter(sel, s, s, [], None, disk, hash)
  {
  }

  lemma NotYet(s: State, s1: State, selected: seq<string>, i: nat, disk: Disk, hash: string -> string)
    requires i < |selected| && Distinct(selected) && Grown(s, s1, selected[..i], None, disk, hash)
             && selected[i] !in s.log
    ensures selected[i] !in s1.log
  {
  }

  lemma StepUp(db: DbType, files: seq<string>, s: State, s1: State, s': State, target: string, done: seq<string>,
               landed: Option<string>, disk: Disk, hash: string -> string)
    requires s1.now >= s.now && Baselined(s.log, s1.log, disk, hash)
    requires UpAfter(SelectPending(Pending(files, s1.log), target, ""), s1, s', done, landed, disk, hash)
    ensures Step(db, files, Command.Up(target), disk, hash, s, s')
  {
    hide UpAfter, Baselined, SelectPending, Pending;
  }

  lemma DownedNext(s: State, s1: State, s': State, plan: seq<string>, i: nat, ok: bool, left: Leftover)
    requires i < |plan| && Downed(s, s1, plan, plan[..i], Untouched)
    requires Downed(s1, s', [plan[i]], if ok then [plan[i]] else [], left) && (ok ==> left.Untouched?)
    ensures Downed(s, s', plan, if ok then plan[..i + 1] else plan[..i], left)
  {
    if ok { assert plan[..i + 1] == plan[..i] + [plan[i]]; }
  }

  lemma DownedStart(s: State, plan: seq<string>)
    ensures Downed(s, s, plan, [], Untouched)
  {
  }

  lemma DownStarts(sel: Selection, s: State)
    ensures DownAfter(sel, s, s, [], Untouched)
  {
  }

  lemma StepDown(db: DbType, files: seq<string>, s: State, s1: State, s': State, count: int, target: string,
                 done: seq<string>, left: Leftover, disk: Disk, hash: string -> string)
    requires s1.now >= s.now && Baselined(s.log, s1.log, disk, hash)
    requires DownAfter(Plan(db, files, s1.log, count, target), s1, s', done, left)
    ensures Step(db, files, Command.Down(count, target), disk, hash, s, s')
  {
    hide DownAfter, Baselined, Plan;
  }

  function Among(list: seq<string>, planned: seq<string>): seq<string> {
    if list == [] then [] else (if list[0] in planned then [list[0]] else []) + Among(list[1..], planned)
  }

  function Shifted(ps: seq<nat>): (r: seq<nat>)
    ensures |r| == |ps| && forall t :: 0 <= t < |ps| ==> r[t] == ps[t] + 1
  {
    seq(|ps|, t requires 0 <= t < |ps| => ps[t] + 1)
  }

  /** Exactly the planned ones of the list, in its order. */
  lemma {:induction false} AmongPicks(list: seq<string>, planned: seq<string>) returns (ps: seq<nat>)
    ensures Picks(list, Among(list, planned), ps)
    ensures forall k :: 0 <= k < |list| ==> (k in ps <==> list[k] in planned)
    decreases |list|
  {
    if list == [] {
      ps := [];
    } else {
      var rest := AmongPicks(list[1..], planned);
      ps := if list[0] in planned then [0] + Shifted(rest) else Shifted(rest);
      AmongFirst(list, planned);
      hide Among, Shifted;
      PicksBehind(list, Among(list[1..], planned), rest);
      if list[0] in planned { PicksFirst(list, Among(list[1..], planned), Shifted(rest)); }
      forall k | 0 <= k < |list| ensures k in ps <==> list[k] in planned {
        if k > 0 {
          assert list[k] == list[1..][k - 1];
          ShiftedIn(rest, Shifted(rest), k - 1);
        }
      }
    }
  }

  lemma AmongFirst(list: seq<string>, planned: seq<string>)
    requires list != []
    ensures Among(list, planned)
            == if list[0] in planned then [list[0]] + Among(list[1..], planned) else Among(list[1..], planned)
  {
  }

  lemma PicksBehind(list: seq<string>, picked: seq<string>, ps: seq<nat>)
    requires list != [] && Picks(list[1..], picked, ps)
    ensures Picks(list, picked, Shifted(ps))
  {
  }

  lemma PicksFirst(list: seq<string>, picked: seq<string>, ps: seq<nat>)
    requires list != [] && Picks(list, picked, ps) && 0 !in ps
    ensures Picks(list, [list[0]] + picked, [0] + ps)
  {
    var qs, all := [0] + ps, [list[0]] + picked;
    forall t | 0 <= t < |qs| ensures qs[t] < |list| && all[t] == list[qs[t]] {
      if t > 0 { assert qs[t] == ps[t - 1] && all[t] == picked[t - 1]; }
    }
    forall t, u | 0 <= t < u < |qs| ensures qs[t] < qs[u] {
      assert qs[u] == ps[u - 1] && ps[u - 1] in ps;
      if t > 0 { assert qs[t] == ps[t - 1]; }
    }
  }

  lemma ShiftedIn(rest: seq<nat>, shifted: seq<nat>, k: nat)
    requires |shifted| == |rest| && forall t :: 0 <= t < |rest| ==> shifted[t] == rest[t] + 1
    ensures k in rest <==> k + 1 in shifted
  {
    if k in rest {
      var t :| 0 <= t < |rest| && rest[t] == k;
      assert shifted[t] == k + 1;
    }
    if k + 1 in shifted {
      var t :| 0 <= t < |rest| && shifted[t] == k + 1;
      assert rest[t] == k;
    }
  }

  /** Status reports a file as edited exactly when its content hashes to
      something else than its row says. */
  lemma {:induction false} MismatchesHold(files: seq<string>, log: Log, disk: Disk, hash: string -> string)
    ensures forall f :: f in Mismatches(files, log, disk, hash) <==> f in files && Differs(f, log, disk, hash)
    decreases |files|
  {
    hide Differs;
    if files != [] {
      MismatchesHold(files[1..], log, disk, hash);
      assert forall f :: f in files <==> f == files[0] || f in files[1..];
    }
  }

  lemma MismatchesReadable(files: seq<string>, log: Log, disk: Disk, hash: string -> string)
    ensures forall f :: f in Mismatches(files, log, disk, hash) ==> f in disk
  {
    MismatchesHold(files, log, disk, hash);
  }

  /** Only files of the list are edited. */
  ghost predicate EditedOnly(files: seq<string>, log: Log, disk: Disk, hash: string -> string, list: seq<string>) {
    forall f :: f in files && Differs(f, log, disk, hash) ==> f in list
  }

  lemma AllEdited(files: seq<string>, log: Log, disk: Disk, hash: string -> string)
    ensures EditedOnly(files, log, disk, hash, Mismatches(files, log, disk, hash))
  {
    hide Differs;
    MismatchesHold(files, log, disk, hash);
  }

  lemma EditedNext(files: seq<string>, log: Log, log': Log, disk: Disk, hash: string -> string, list: seq<string>,
                   i: nat)
    requires i < |list| && EditedOnly(files, log, disk, hash, list[i..])
    requires Repaired(log, log', list[i], disk, hash) && !Differs(list[i], log', disk, hash)
    ensures EditedOnly(files, log', disk, hash, list[i + 1..])
  {
    forall f | f in files && Differs(f, log', disk, hash) ensures f in list[i + 1..] {
      assert Differs(f, log, disk, hash);
      assert list[i..] == [list[i]] + list[i + 1..];
    }
  }

  lemma {:induction false} NoMismatches(files: seq<string>, log: Log, disk: Disk, hash: string -> string)
    requires EditedOnly(files, log, disk, hash, [])
    ensures Mismatches(files, log, disk, hash) == []
    decreases |files|
  {
    hide Differs;
    if files != [] {
      assert files[0] in files;
      assert forall f :: f in files[1..] ==> f in files;
      NoMismatches(files[1..], log, disk, hash);
    }
  }

  /** After a status that wrote, the next one has nothing to adopt. */
  lemma {:induction false} NothingToBaseline(files: seq<string>, log: Log, disk: Disk)
    requires forall k :: 0 <= k < |files| ==> !LacksChecksum(files[k], log, disk)
    ensures Unbaselined(files, log, disk) == []
    decreases |files|
  {
    if files != [] { NothingToBaseline(files[1..], log, disk); }
  }

  /** New rows are only of listed files, with the hash of what is on disk; no
      row is changed or dropped. */
  ghost predicate MarkedAsApplied(s: State, s': State, list: seq<string>, disk: Disk, hash: string -> string) {
    && s.now <= s'.now
    && (forall f :: f in s.log ==> f in s'.log && s'.log[f] == s.log[f])
    && (forall f :: f in s'.log && f !in s.log ==>
          f in list && f in disk && s'.log[f].checksum == Some(hash(disk[f])) && s.now <= s'.log[f].appliedAt <= s'.now)
  }

  lemma MarkedNothing(s: State, list: seq<string>, disk: Disk, hash: string -> string)
    ensures MarkedAsApplied(s, s, list, disk, hash)
  {
  }

  lemma MarkedMore(s: State, s1: State, s': State, list: seq<string>, disk: Disk, hash: string -> string)
    requires MarkedAsApplied(s, s1, list, disk, hash) && MarkedAsApplied(s1, s', list, disk, hash)
    ensures MarkedAsApplied(s, s', list, disk, hash)
    ensures forall f :: (f in s.log ==> f in s1.log) && (f in s1.log ==> f in s'.log)
  {
  }

  lemma {:induction false} PendingAreNew(files: seq<string>, log: Log)
    ensures forall f :: f in Pending(files, log) ==> f in files && f !in log
    decreases |files|
  {
    if files != [] {
      PendingAreNew(files[1..], log);
      assert forall f :: f in files[1..] ==> f in files;
    }
  }

  lemma DistinctRest(files: seq<string>)
    requires Distinct(files) && files != []
    ensures Distinct(files[1..]) && files[0] !in files[1..]
  {
    forall k | 0 <= k < |files| - 1 ensures files[1..][k] != files[0] {
      assert files[1..][k] == files[k + 1];
    }
  }

  lemma DistinctFront(f: string, rest: seq<string>)
    requires Distinct(rest) && f !in rest
    ensures Distinct([f] + rest)
  {
  }

  lemma {:induction false} PendingDistinct(files: seq<string>, log: Log)
    requires Distinct(files)
    ensures Distinct(Pending(files, log))
    decreases |files|
  {
    hide Distinct;
    if files != [] {
      DistinctRest(files);
      PendingDistinct(files[1..], log);
      PendingAreNew(files[1..], log);
      if files[0] in log {
        assert Pending(files, log) == Pending(files[1..], log);
      } else {
        DistinctFront(files[0], Pending(files[1..], log));
      }
    }
  }

  /** A selection is a first part of the pending files, or one file of it. */
  lemma SelectsSome(pending: seq<string>, target: string, only: string)
    ensures var sel := SelectPending(pending, target, only);
            sel.Selected? ==>
              || (|sel.files| <= |pending| && sel.files == pending[..|sel.files|])
              || (exists i :: 0 <= i < |pending| && sel.files == [pending[i]])
  {
    hide Find;
    var sel := SelectPending(pending, target, only);
    if sel.Selected? && only != "" {
      var first := if target == "" then pending else pending[..Find(pending, target) + 1];
      assert sel.files == [pending[Find(first, only)]];
    }
  }

  /** What up is about to run was never applied, and no file comes twice. */
  lemma SelectedNew(files: seq<string>, log: Log, target: string, only: string)
    requires Distinct(files)
    ensures var sel := SelectPending(Pending(files, log), target, only);
            sel.Selected? ==> Distinct(sel.files) && forall k :: 0 <= k < |sel.files| ==> sel.files[k] !in log
  {
    PendingDistinct(files, log);
    PendingAreNew(files, log);
    SelectsSome(Pending(files, log), target, only);
    hide SelectPending, Pending;
    assert forall k :: 0 <= k < |Pending(files, log)| ==> Pending(files, log)[k] !in log;
  }

  class Adapter {
    const dbType: DbType
    const files: seq<string>
    const sections: string -> Sections
    const hash: string -> string
    const fate: nat -> Fate
    const tick: nat -> nat
    const autoRollback: bool
    var disk: Disk
    var log: Log
    var now: int
    var calls: nat

    ghost function Now(): State
      reads this
    {
      State(log, now)
    }

    constructor (dbType: DbType, files: seq<string>, sections: string -> Sections, hash: string -> string,
                 fate: nat -> Fate, tick: nat -> nat, autoRollback: bool, disk: Disk, log: Log)
      ensures this.dbType == dbType && this.files == files && this.sections == sections && this.hash == hash
      ensures this.disk == disk && this.log == log
    {
      this.dbType, this.files, this.sections, this.hash := dbType, files, sections, hash;
      this.fate, this.tick, this.autoRollback := fate, tick, autoRollback;
      this.disk, this.log, now, calls := disk, log, 0, 0;
    }

    /** One call to the database; time passes. */
    method Call() returns (f: Fate)
      modifies `calls, `now
      ensures now >= old(now) && calls == old(calls) + 1 && f == fate(old(calls))
    {
      f := fate(calls);
      now := now + tick(calls);
      calls := calls + 1;
    }

    /** Every one of these calls was done and said so. */
    ghost predicate AllFine(from: nat, to: nat) {
      forall n :: from <= n < to ==> fate(n).Fine?
    }

    // ---- status ----

    /** Compare an applied file with its row, or adopt its checksum. */
    method CheckFile(file: string, rows: Log, readOnly: bool) returns (ok: bool, mismatch: bool, baseline: bool)
      requires file in rows && file in log && log[file] == rows[file]
      modifies `log, `now, `calls
      ensures now >= old(now)
      ensures log == old(log) || (!readOnly && LacksChecksum(file, rows, disk)
                                  && log == old(log)[file := rows[file].(checksum := Some(hash(disk[file])))])
      ensures calls == old(calls) + if !readOnly && LacksChecksum(file, rows, disk) then 1 else 0
      ensures ok <==> AllFine(old(calls), calls)
      ensures log == old(log) <==> calls == old(calls) || fate(old(calls)).Refused?
      ensures ok ==>
                && mismatch == Differs(file, rows, disk, hash)
                && baseline == (!readOnly && LacksChecksum(file, rows, disk))
                && (!readOnly ==> !LacksChecksum(file, log, disk))
    {
      ok, mismatch, baseline := true, false, false;
      if file !in disk { return; }
      var current := hash(disk[file]);
      if rows[file].checksum.None? {
        if readOnly { return; }
        var update := Call();
        if !update.Refused? { log := log[file := log[file].(checksum := Some(current))]; }
        ok, baseline := update.Fine?, true;
      } else {
        mismatch := rows[file].checksum.value != current;
      }
    }

    lemma FineMore(from: nat, m: nat, to: nat)
      requires AllFine(from, m)
      ensures AllFine(m, to) ==> AllFine(from, to)
    {
    }

    lemma FineOne(from: nat)
      ensures AllFine(from, from) && (AllFine(from, from + 1) <==> fate(from).Fine?)
    {
    }

    method Status(readOnly: bool) returns (r: Option<StatusReport>)
      requires Distinct(files)
      modifies `log, `now, `calls
      ensures now >= old(now) && Baselined(old(log), log, disk, hash)
      ensures readOnly ==> log == old(log)
      ensures r.Some? ==>
                && r.value == StatusReport(Pending(files, log), Applied(files, log),
                                           Mismatches(files, old(log), disk, hash),
                                           if readOnly then [] else Unbaselined(files, old(log), disk),
                                           OutOfOrder(files, log, false), Orphans(files, log))
                && (!readOnly ==> forall k :: 0 <= k < |files| ==> !LacksChecksum(files[k], log, disk))
      // it fails exactly when a call does, and stops there
      ensures calls > old(calls) && AllFine(old(calls), calls - 1)
      ensures r.Some? <==> fate(calls - 1).Fine?
      ensures r.Some? ==> calls == old(calls) + 1 + |r.value.baselined|
    {
      hide Marked, Listed, Differs, LacksChecksum, Pending, Applied, Mismatches, Unbaselined, OutOfOrder, Baselined,
           Orphans, Distinct, AllFine;
      MarkedStart(files, log, disk, hash, readOnly);
      MarkedBaselines(files, 0, log, log, disk, hash, readOnly);
      FineOne(calls);
      ghost var calls0 := calls;
      var read := Call();
      if !read.Fine? { return None; }
      var rows := log;
      var pending, applied, mismatches, baselined, outOfOrder := [], [], [], [], [];
      var seenPending := false;
      ghost var r0 := StatusReport(pending, applied, mismatches, baselined, outOfOrder, {});
      ListsStart(files, rows, disk, hash, readOnly);
      for i := 0 to |files|
        invariant now >= old(now) && Marked(files, i, rows, log, disk, hash, readOnly)
        invariant r0 == StatusReport(pending, applied, mismatches, baselined, outOfOrder, {})
        invariant Listed(files, i, rows, disk, hash, readOnly, seenPending, r0)
        invariant calls == calls0 + 1 + |baselined| && AllFine(calls0, calls)
      {
        var file := files[i];
        ghost var before, calls1 := log, calls;
        MarkedHere(files, i, rows, log, disk, hash, readOnly);
        if file in rows {
          ListsNext(files, i, rows, disk, hash, readOnly, seenPending, r0);
          var ok, mismatch, baseline := CheckFile(file, rows, readOnly);
          MarkedNext(files, i, rows, before, log, disk, hash, readOnly, ok);
          FineOne(calls1);
          FineMore(calls0, calls1, calls);
          if !ok { return None; }
          if mismatch { mismatches := mismatches + [file]; }
          if baseline { baselined := baselined + [file]; }
          if seenPending { outOfOrder := outOfOrder + [file]; }
          applied := applied + [file];
        } else {
          ListsNext(files, i, rows, disk, hash, readOnly, seenPending, r0);
          MarkedNext(files, i, rows, before, log, disk, hash, readOnly, true);
          NotRecorded(file, rows, disk, hash);
          pending := pending + [file];
          seenPending := true;
        }
        r0 := StatusReport(pending, applied, mismatches, baselined, outOfOrder, {});
      }
      ListsEnd(files, rows, disk, hash, readOnly, seenPending, r0);
      MarkedBaselines(files, |files|, rows, log, disk, hash, readOnly);
      SameKeys(files, rows, log, false);
      FineOne(calls - 1);
      FineLast(calls0, calls);
      return Some(StatusReport(pending, applied, mismatches, baselined, outOfOrder, Orphans(files, rows)));
    }

    lemma FineLast(from: nat, to: nat)
      requires from < to && AllFine(from, to)
      ensures AllFine(from, to - 1) && fate(to - 1).Fine?
    {
    }

    // ---- up ----

    /** The file can be read and has an Up section. */
    ghost predicate CanRun(file: string)
      reads `disk
    {
      file in disk && sections(disk[file]).hasUp
    }

    /** The calls of a file that goes through: its Up section, if there is anything in it,
        and its row. */
    ghost function UpCalls(file: string): nat
      reads `disk
    {
      if CanRun(file) && !sections(disk[file]).upRuns then 1 else 2
    }

    /** The Up section, whose call is number `from`, runs through. */
    ghost predicate UpRuns(file: string, from: nat)
      reads `disk
    {
      CanRun(file) && (sections(disk[file]).upRuns ==> fate(from).Fine?)
    }

    /** The Up section runs through, and the row is written and said to be. */
    ghost predicate Applies(file: string, from: nat)
      reads `disk
    {
      UpRuns(file, from) && fate(from + UpCalls(file) - 1).Fine?
    }

    /** Run one pending file's Up section and, only if it ran through, record it. */
    method ApplyOne(file: string) returns (ok: bool)
      requires file !in log
      modifies `log, `now, `calls
      ensures ok <==> Applies(file, old(calls))
      ensures file in log <==> UpRuns(file, old(calls)) && !fate(old(calls) + UpCalls(file) - 1).Refused?
      ensures calls == old(calls) + if UpRuns(file, old(calls)) then UpCalls(file) else if CanRun(file) then 1 else 0
      ensures Grown(old(Now()), Now(), if ok then [file] else [],
                    if !ok && file in log then Some(file) else None, disk, hash)
    {
      if file !in disk || !sections(disk[file]).hasUp { return false; }
      if sections(disk[file]).upRuns {
        var run := Call();
        if !run.Fine? { return false; }
      }
      ok := Record(file);
    }

    method Record(file: string) returns (ok: bool)
      requires file !in log && file in disk
      modifies `log, `now, `calls
      ensures calls == old(calls) + 1
      ensures (ok <==> fate(old(calls)).Fine?) && (file in log <==> !fate(old(calls)).Refused?)
      ensures Grown(old(Now()), Now(), if ok then [file] else [],
                    if !ok && file in log then Some(file) else None, disk, hash)
    {
      var insert := Call();
      if !insert.Refused? { log := log[file := Row(now, Some(hash(disk[file])))]; }
      return insert.Fine?;
    }

    // ---- which files an up applies ----

    /** A file goes through, with or without its checks, from call `from` on. */
    ghost predicate Goes(file: string, from: nat, checked: bool)
      reads `disk
    {
      if !checked then Applies(file, from)
      else
        var at := from + PreCalls(file);
        && (PreCalls(file) == 1 ==> fate(from).Fine?) && Applies(file, at)
        && (PostCalls(file) == 1 ==> fate(at + UpCalls(file)).Fine?)
    }

    ghost function PreCalls(file: string): nat
      reads `disk
    {
      if file in disk && sections(disk[file]).preCheck then 1 else 0
    }

    ghost function PostCalls(file: string): nat
      reads `disk
    {
      if file in disk && sections(disk[file]).postCheck then 1 else 0
    }

    /** The next call when all these files went through. */
    ghost function Behind(done: seq<string>, from: nat, checked: bool): nat
      reads `disk
    {
      if done == [] then from
      else
        var n := |done| - 1;
        Behind(done[..n], from, checked) + UpCalls(done[n])
        + if checked then PreCalls(done[n]) + PostCalls(done[n]) else 0
    }

    /** These files went through, one after the other. */
    ghost predicate AllGo(done: seq<string>, from: nat, checked: bool)
      reads `disk
    {
      forall i :: 0 <= i < |done| ==> Goes(done[i], Behind(done[..i], from, checked), checked)
    }

    /** Exactly the files before the first that does not go through were applied. */
    ghost predicate UpTo(selected: seq<string>, applied: seq<string>, from: nat, checked: bool)
      reads `disk
    {
      && |applied| <= |selected| && applied == selected[..|applied|] && AllGo(applied, from, checked)
      && (|applied| < |selected| ==> !Goes(selected[|applied|], Behind(applied, from, checked), checked))
    }

    lemma AllGoNext(done: seq<string>, file: string, from: nat, checked: bool)
      requires AllGo(done, from, checked) && Goes(file, Behind(done, from, checked), checked)
      ensures AllGo(done + [file], from, checked)
      ensures Behind(done + [file], from, checked)
              == Behind(done, from, checked) + UpCalls(file)
                 + if checked then PreCalls(file) + PostCalls(file) else 0
    {
      var all := done + [file];
      assert all[..|done|] == done;
      hide Goes;
      forall i | 0 <= i < |all| ensures Goes(all[i], Behind(all[..i], from, checked), checked) {
        if i < |done| { assert all[..i] == done[..i]; }
      }
    }

    lemma NoneGo(from: nat, checked: bool)
      ensures AllGo([], from, checked) && Behind([], from, checked) == from
    {
    }

    /** The file that failed is in the changelog: its Up section ran through, and the
        answer to its row was lost. */
    ghost predicate Lands(file: string, from: nat)
      reads `disk
    {
      UpRuns(file, from) && fate(from + UpCalls(file) - 1).Lost?
    }

    /** Run the selected files in order, up to the first that fails. */
    method ApplyAll(selected: seq<string>) returns (ok: bool, applied: seq<string>, ghost landed: Option<string>)
      requires Distinct(selected) && forall k :: 0 <= k < |selected| ==> selected[k] !in log
      modifies `log, `now, `calls
      ensures Upped(old(Now()), Now(), selected, applied, landed, disk, hash)
      ensures UpTo(selected, applied, old(calls), false) && (ok <==> applied == selected)
      ensures landed == if !ok && Lands(selected[|applied|], Behind(applied, old(calls), false))
                        then Some(selected[|applied|]) else None
    {
      hide Grown, Distinct, Applies, AllGo, Behind, Lands, UpRuns, UpCalls;
      ghost var s1 := Now();
      ok, applied, landed := true, [], None;
      GrownStart(s1, disk, hash);
      NoneGo(calls, false);
      for i := 0 to |selected|
        invariant ok && landed.None? && applied == selected[..i] && Grown(s1, Now(), applied, None, disk, hash)
        invariant calls == Behind(applied, old(calls), false) && AllGo(applied, old(calls), false)
      {
        ghost var before := Now();
        var file := selected[i];
        NotYet(s1, before, selected, i, disk, hash);
        RunsThrough(file, calls);
        ok := ApplyOne(file);
        landed := if !ok && file in log then Some(file) else None;
        GrownNext(s1, before, Now(), applied, file, ok, landed, disk, hash);
        if !ok { return; }
        AllGoNext(applied, file, old(calls), false);
        applied := applied + [file];
      }
    }

    lemma RunsThrough(file: string, from: nat)
      ensures Applies(file, from) ==> UpRuns(file, from) && fate(from + UpCalls(file) - 1).Fine?
      ensures Goes(file, from, false) <==> Applies(file, from)
      ensures Lands(file, from) <==>
                UpRuns(file, from) && !Applies(file, from) && !fate(from + UpCalls(file) - 1).Refused?
    {
    }

    /** When no call fails, every file that can run is applied. */
    lemma EverythingGoes(selected: seq<string>, applied: seq<string>, from: nat, checked: bool)
      requires UpTo(selected, applied, from, checked) && forall n :: fate(n).Fine?
      requires forall i :: 0 <= i < |selected| ==> CanRun(selected[i])
      ensures applied == selected
    {
      assert selected[..|selected|] == selected;
    }

    method Up(target: string, only: string)
      returns (ok: bool, applied: seq<string>, ghost s1: State, ghost landed: Option<string>, ghost from: nat)
      requires Distinct(files)
      modifies `log, `now, `calls
      ensures s1.now >= old(now) && Baselined(old(log), s1.log, disk, hash)
      ensures UpAfter(SelectPending(Pending(files, s1.log), target, only), s1, Now(), applied, landed, disk, hash)
      ensures only == "" ==> Step(dbType, files, Command.Up(target), disk, hash, old(Now()), Now())
      // the status, up to call `from`, and then the files, up to the first that fails
      ensures from > old(calls) && AllFine(old(calls), from - 1)
      ensures var sel := SelectPending(Pending(files, s1.log), target, only);
              if fate(from - 1).Fine? && sel.Selected? then
                && UpTo(sel.files, applied, from, false) && (ok <==> applied == sel.files)
                && landed == if !ok && Lands(sel.files[|applied|], Behind(applied, from, false))
                             then Some(sel.files[|applied|]) else None
              else !ok && applied == [] && landed.None? && Now() == s1
    {
      hide SelectPending, Pending, Upped, Grown, Baselined, Step, Distinct, Applied, Mismatches, Unbaselined,
           OutOfOrder, Orphans, AllGo, Goes, Behind, Lands;
      ghost var s0 := Now();
      var status := Status(false);
      s1, landed, applied, ok, from := Now(), None, [], false, calls;
      UpStarts(SelectPending(Pending(files, log), target, only), s1, disk, hash);
      if status.Some? {
        var sel := SelectPending(status.value.pending, target, only);
        if sel.Selected? {
          SelectedNew(files, log, target, only);
          ok, applied, landed := ApplyAll(sel.files);
        }
      }
      if only == "" { StepUp(dbType, files, s0, s1, Now(), target, applied, landed, disk, hash); }
    }

    // ---- down ----

    /** Delete the row, if it is there. */
    method DeleteRow(file: string) returns (f: Fate)
      modifies `log, `now, `calls
      ensures now >= old(now) && log == if f.Refused? then old(log) else old(log) - {file}
      ensures calls == old(calls) + 1 && f == fate(old(calls))
    {
      f := Call();
      if !f.Refused? { log := log - {file}; }
    }

    ghost predicate HasDown(file: string)
      reads `disk
    {
      file in disk && sections(disk[file]).hasDown
    }

    /** MongoDB: the down function first; only when it has run through the row is
        deleted, by the second call. */
    method RollbackOne(file: string) returns (ok: bool)
      modifies `log, `now, `calls
      ensures now >= old(now)
      ensures !HasDown(file) ==> !ok && log == old(log) && calls == old(calls)
      ensures HasDown(file) ==> ok == (fate(old(calls)).Fine? && fate(old(calls) + 1).Fine?)
      ensures HasDown(file) && !fate(old(calls)).Fine? ==> log == old(log) && calls == old(calls) + 1
      ensures HasDown(file) && fate(old(calls)).Fine? ==>
                calls == old(calls) + 2 && log == if fate(old(calls) + 1).Refused? then old(log) else old(log) - {file}
    {
      if file !in disk || !sections(disk[file]).hasDown { return false; }
      var run := Call();
      if !run.Fine? { return false; }
      var delete := DeleteRow(file);
      return delete.Fine?;
    }

    /** MariaDB: the row first, then, when it is surely gone, the Down section; if
        that fails a third call puts the row back, without its checksum. */
    method DeleteThenRun(file: string) returns (ok: bool, ghost left: Leftover)
      modifies `log, `now, `calls
      ensures !HasDown(file) ==> !ok && left.Untouched? && calls == old(calls)
      ensures HasDown(file) ==> ok == (fate(old(calls)).Fine? && fate(old(calls) + 1).Fine?)
      ensures HasDown(file) && !fate(old(calls)).Fine? ==>
                calls == old(calls) + 1 && left == if fate(old(calls)).Refused? then Untouched else Removed
      ensures ok ==> calls == old(calls) + 2
      ensures HasDown(file) && !ok && fate(old(calls)).Fine? ==>
                && calls == old(calls) + 3 && (left.Restored? <==> !fate(old(calls) + 2).Refused?)
                && (left.Removed? <==> fate(old(calls) + 2).Refused?)
      ensures Downed(old(Now()), Now(), [file], if ok then [file] else [], left) && (ok ==> left.Untouched?)
    {
      left, ok := Untouched, false;
      if file !in disk || !sections(disk[file]).hasDown { return; }
      var delete := DeleteRow(file);
      if !delete.Fine? {
        left := if delete.Refused? then Untouched else Removed;
        return;
      }
      var run := Call();
      ok := run.Fine?;
      if !ok {
        var insert := Call();
        left := Removed;
        if !insert.Refused? {
          left := Restored(Row(now, None));
          log := log[file := Row(now, None)];
        }
      }
    }

    /** The file's two calls, the first being number `from`, both go through. */
    ghost predicate Undoes(file: string, from: nat)
      reads `disk
    {
      HasDown(file) && fate(from).Fine? && fate(from + 1).Fine?
    }

    method DownOne(file: string) returns (ok: bool, ghost left: Leftover)
      modifies `log, `now, `calls
      ensures Downed(old(Now()), Now(), [file], if ok then [file] else [], left) && (ok ==> left.Untouched?)
      ensures (ok <==> Undoes(file, old(calls))) && (ok ==> calls == old(calls) + 2)
      ensures left.Restored? <==>
                dbType.MariaDb? && HasDown(file) && fate(old(calls)).Fine? && !fate(old(calls) + 1).Fine?
                && !fate(old(calls) + 2).Refused?
      ensures dbType.MariaDb? ==>
                (left.Removed? <==>
                   HasDown(file)
                   && (fate(old(calls)).Lost?
                       || (fate(old(calls)).Fine? && !fate(old(calls) + 1).Fine? && fate(old(calls) + 2).Refused?)))
      ensures dbType.MongoDb? && left.Removed? ==>
                HasDown(file) && fate(old(calls)).Fine? && fate(old(calls) + 1).Lost?
    {
      if dbType.MariaDb? {
        ok, left := DeleteThenRun(file);
      } else {
        ghost var before := Now();
        ok := RollbackOne(file);
        left := if ok || log == before.log then Untouched else Removed;
      }
    }

    /** Exactly the files before the first that cannot be undone were rolled back. */
    ghost predicate DownTo(plan: seq<string>, rolledBack: seq<string>, from: nat)
      reads `disk
    {
      && |rolledBack| <= |plan| && rolledBack == plan[..|rolledBack|]
      && (forall i :: 0 <= i < |rolledBack| ==> Undoes(plan[i], from + 2 * i))
      && (|rolledBack| < |plan| ==> !Undoes(plan[|rolledBack|], from + 2 * |rolledBack|))
    }

    /** When no call fails, every file with a Down section is rolled back. */
    lemma EverythingUndone(plan: seq<string>, rolledBack: seq<string>, from: nat)
      requires DownTo(plan, rolledBack, from) && forall n :: fate(n).Fine?
      requires forall i :: 0 <= i < |plan| ==> HasDown(plan[i])
      ensures rolledBack == plan
    {
      assert plan[..|plan|] == plan;
    }

    /** Roll back exactly these files, up to the first that fails. */
    method Down(plan: seq<string>) returns (ok: bool, rolledBack: seq<string>, ghost left: Leftover)
      modifies `log, `now, `calls
      ensures Downed(old(Now()), Now(), plan, rolledBack, left)
      ensures DownTo(plan, rolledBack, old(calls)) && (ok <==> rolledBack == plan)
      ensures ok ==> left.Untouched?
    {
      hide Downed, Undoes, HasDown;
      ghost var s := Now();
      ok, rolledBack, left := true, [], Untouched;
      DownedStart(s, plan);
      for i := 0 to |plan|
        invariant ok && left.Untouched? && rolledBack == plan[..i] && Downed(s, Now(), plan, rolledBack, Untouched)
        invariant calls == old(calls) + 2 * i
        invariant forall j :: 0 <= j < i ==> Undoes(plan[j], old(calls) + 2 * j)
      {
        ghost var before := Now();
        ok, left := DownOne(plan[i]);
        DownedNext(s, before, Now(), plan, i, ok, left);
        if !ok { return; }
        rolledBack := rolledBack + [plan[i]];
      }
    }

    /** What `down` would roll back, and which of those files were edited. */
    method RollbackPlan(count: int, target: string) returns (sel: Option<Selection>, edited: seq<string>)
      requires Distinct(files)
      modifies `log, `now, `calls
      ensures now >= old(now) && Baselined(old(log), log, disk, hash)
      ensures sel.Some? ==> sel.value == Plan(dbType, files, log, count, target)
      ensures calls > old(calls) && AllFine(old(calls), calls - 1) && (sel.Some? <==> fate(calls - 1).Fine?)
      ensures sel.Some? && sel.value.Selected? ==>
                edited == Among(Mismatches(files, old(log), disk, hash), sel.value.files)
    {
      hide Baselined, Pending, Mismatches, Unbaselined, OutOfOrder, Orphans, Distinct, Among, SelectPending;
      var status := Status(false);
      if status.None? { return None, []; }
      AppliedIn(files, log);
      var newest := if dbType.MariaDb? then Reverse(status.value.applied)
          else SortNewest(files, log, status.value.applied);
      sel := Some(if target != "" then SelectPending(newest, target, "") else Selected(Take(newest, count)));
      edited := if sel.value.Selected? then Among(status.value.mismatches, sel.value.files) else [];
    }

    /** The rollback command: plan, then roll back what was planned. */
    method Rollback(count: int, target: string)
      returns (ok: bool, rolledBack: seq<string>, ghost s1: State, ghost left: Leftover, ghost from: nat)
      requires Distinct(files)
      modifies `log, `now, `calls
      ensures s1.now >= old(now) && Baselined(old(log), s1.log, disk, hash)
      ensures DownAfter(Plan(dbType, files, s1.log, count, target), s1, Now(), rolledBack, left)
      ensures Step(dbType, files, Command.Down(count, target), disk, hash, old(Now()), Now())
      // the plan, up to call `from`, and then the files, up to the first that fails
      ensures from > old(calls) && AllFine(old(calls), from - 1)
      ensures var sel := Plan(dbType, files, s1.log, count, target);
              if fate(from - 1).Fine? && sel.Selected? then
                DownTo(sel.files, rolledBack, from) && (ok <==> rolledBack == sel.files) && (ok ==> left.Untouched?)
              else !ok && rolledBack == [] && Now() == s1
    {
      hide Plan, Pending, Downed, Baselined, Step, Distinct, Mismatches, Among, DownTo;
      ghost var s0 := Now();
      var sel, edited := RollbackPlan(count, target);
      s1, left, rolledBack, ok, from := Now(), Untouched, [], false, calls;
      DownStarts(Plan(dbType, files, log, count, target), s1);
      if sel.Some? && sel.value.Selected? {
        ok, rolledBack, left := Down(sel.value.files);
      }
      StepDown(dbType, files, s0, s1, Now(), count, target, rolledBack, left, disk, hash);
    }

    // ---- baseline ----

    /** Mark files as applied without running them; a file that has a row keeps
        it, and one that fails does not stop the others. */
    method Baseline(list: seq<string>) returns (ok: bool, marked: seq<string>)
      modifies `log, `now, `calls
      ensures MarkedAsApplied(old(Now()), Now(), list, disk, hash)
      ensures forall f :: f in marked ==> f in list && f in log && f !in old(log)
      ensures ok ==> forall k :: 0 <= k < |list| ==> list[k] in log
      ensures AllFine(old(calls), calls) ==>
                && (forall k :: 0 <= k < |list| ==> (list[k] in marked <==> list[k] !in old(log) && list[k] in disk))
                && ((forall k :: 0 <= k < |list| ==> list[k] in disk) ==> ok)
    {
      hide MarkedAsApplied;
      ghost var s := Now();
      ok, marked := true, [];
      MarkedNothing(s, list, disk, hash);
      for i := 0 to |list|
        invariant MarkedAsApplied(s, Now(), list, disk, hash)
        invariant forall f :: f in marked ==> f in list && f in log && f !in s.log
        invariant ok ==> forall k :: 0 <= k < i ==> list[k] in log
        invariant calls >= old(calls)
        invariant AllFine(old(calls), calls) ==>
                    && (forall k :: 0 <= k < i ==> (list[k] in marked <==> list[k] !in s.log && list[k] in disk))
                    && (forall f :: f in log <==> f in s.log || f in marked)
                    && ((forall k :: 0 <= k < i ==> list[k] in disk) ==> ok)
      {
        ghost var before := Now();
        var done, added := MarkOne(list, i);
        MarkedMore(s, before, Now(), list, disk, hash);
        ok := ok && done;
        if added { marked := marked + [list[i]]; }
      }
    }

    /** MongoDB looks for the row first; MariaDB's insert is ignored when it is there. */
    method MarkOne(list: seq<string>, i: nat) returns (ok: bool, added: bool)
      requires i < |list|
      modifies `log, `now, `calls
      ensures MarkedAsApplied(old(Now()), Now(), list, disk, hash)
      ensures ok ==> list[i] in log
      ensures added ==> list[i] in log && list[i] !in old(log)
      ensures dbType.MongoDb? ==>
                (ok <==> fate(old(calls)).Fine?
                         && (list[i] in old(log) || (list[i] in disk && fate(old(calls) + 1).Fine?)))
      ensures dbType.MariaDb? ==> (ok <==> list[i] in disk && fate(old(calls)).Fine?)
      ensures calls >= old(calls) && (list[i] in disk && AllFine(old(calls), calls) ==> ok)
      ensures added <==> ok && list[i] !in old(log)
      ensures forall f :: f in log && f != list[i] ==> f in old(log)
    {
      var file := list[i];
      ghost var before := Now();
      added := false;
      if dbType.MongoDb? {
        var find := Call();
        if !find.Fine? { return false, false; }
        if file in log { return true, false; }
      }
      if file !in disk { return false, false; }
      var insert := Call();
      ok := insert.Fine?;
      if file !in log && !insert.Refused? {
        log := log[file := Row(now, Some(hash(disk[file])))];
        added := ok;
      }
    }

    // ---- edited files ----

    /** Accept the content of the file on disk as the recorded one. */
    method RepairChecksum(file: string) returns (ok: bool)
      modifies `log, `now, `calls
      ensures now >= old(now) && Repaired(old(log), log, file, disk, hash)
      ensures ok ==> !Differs(file, log, disk, hash)
      ensures ok <==> file in disk && fate(old(calls)).Fine?
      ensures file in disk ==>
                calls == old(calls) + 1
                && log == if file !in old(log) || fate(old(calls)).Refused? then old(log)
                          else old(log)[file := old(log)[file].(checksum := Some(hash(disk[file])))]
      ensures file !in disk ==> calls == old(calls) && log == old(log)
    {
      if file !in disk { return false; }
      var update := Call();
      if !update.Refused? && file in log { log := log[file := log[file].(checksum := Some(hash(disk[file])))]; }
      return update.Fine?;
    }

    /** The checksum gate after status: it passes, at once or by accepting every
        edited file, only with no edited file left. */
    method EnforceChecksumGate(mismatches: seq<string>, allowDrift: bool) returns (ok: bool)
      requires mismatches == Mismatches(files, log, disk, hash)
      modifies `log, `now, `calls
      ensures now >= old(now)
      ensures ok ==> Mismatches(files, log, disk, hash) == []
      ensures !allowDrift ==> (ok <==> mismatches == []) && log == old(log)
      ensures log.Keys == old(log.Keys)
      ensures forall f :: f in log && f !in mismatches ==> log[f] == old(log)[f]
      ensures allowDrift ==> (ok <==> AllFine(old(calls), old(calls) + |mismatches|))
    {
      if mismatches == [] { return true; }
      if !allowDrift { return false; }
      MismatchesReadable(files, log, disk, hash);
      hide Mismatches, Differs, EditedOnly;
      AllEdited(files, log, disk, hash);
      assert mismatches[0..] == mismatches;
      for i := 0 to |mismatches|
        invariant now >= old(now) && log.Keys == old(log.Keys)
        invariant forall f :: f in log && f !in mismatches ==> log[f] == old(log)[f]
        invariant EditedOnly(files, log, disk, hash, mismatches[i..])
        invariant calls == old(calls) + i && AllFine(old(calls), calls)
      {
        ghost var before := log;
        ok := RepairChecksum(mismatches[i]);
        if !ok { return; }
        EditedNext(files, before, log, disk, hash, mismatches, i);
      }
      NoMismatches(files, log, disk, hash);
      ok := true;
    }
  }

  /** The consistency gate passes exactly when every row has its file and the
      applied files are a prefix of the file list. */
  method EnforceChangelogConsistencyGate(files: seq<string>, log: Log, status: StatusReport) returns (ok: bool)
    requires status.outOfOrder == OutOfOrder(files, log, false) && status.orphaned == Orphans(files, log)
    ensures ok <==> (forall f :: f in log ==> f in files || IsRepeatable(f)) && exists n :: Prefix(files, log, n)
  {
    OutOfOrderMeansNoPrefix(files, log);
    ok := status.orphaned == {} && status.outOfOrder == [];
    if forall f :: f in log ==> f in files || IsRepeatable(f) {
      assert status.orphaned == {};
    } else {
      var f :| f in log && f !in files && !IsRepeatable(f);
      assert f in status.orphaned;
    }
  }
}
