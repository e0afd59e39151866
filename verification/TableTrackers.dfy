/** The two trackers of which tables exist before each migration file: one for
    dropped tables, one for foreign keys. */
module TableTrackers {

  /** What is read from a file's Up section, names in lower case: tables created
      (also as the new name of a rename), dropped, renamed away, and the tables
      its foreign keys refer to; whether an unresolved one is allowed. */
  datatype FileTables = FileTables(name: string, created: seq<string>, dropped: seq<string>, renamed: seq<string>,
                                   references: seq<string>, allowed: bool)

  /** Where a table comes from. */
  datatype Source = Listed | CreatedBy(file: string)

  datatype Setting = Unset | Off | Warn | Block

  datatype CrossResult = CrossResult(file: string, errors: seq<string>, warnings: seq<string>)

  /** Dropped or renamed away. */
  predicate Goes(f: FileTables, t: string) {
    t in f.dropped || t in f.renamed
  }

  predicate Mentions(f: FileTables, t: string) {
    t in f.created || Goes(f, t)
  }

  // ---- what each tracker holds before file i ----

  /** Created after dropped: a table that a file both drops and creates exists. */
  ghost predicate KnownBefore(existing: seq<string>, files: seq<FileTables>, t: string)
  {
    if files == [] then t in existing
    else
      var last := files[|files| - 1];
      t in last.created || (!Goes(last, t) && KnownBefore(existing, files[..|files| - 1], t))
  }

  /** Dropped after created: a table that a file both drops and creates is gone. */
  ghost predicate AvailableBefore(existing: seq<string>, files: seq<FileTables>, t: string)
  {
    if files == [] then t in existing
    else
      var last := files[|files| - 1];
      !Goes(last, t) && (t in last.created || AvailableBefore(existing, files[..|files| - 1], t))
  }

  /** Available to a file's own foreign keys: what was there and is not dropped,
      and what the file creates. */
  ghost predicate AvailableIn(existing: seq<string>, before: seq<FileTables>, f: FileTables, t: string) {
    t in f.created || (!Goes(f, t) && AvailableBefore(existing, before, t))
  }

  // ---- the trackers ----

  /** Where a known table comes from: the last file that created it. */
  ghost function Origin(files: seq<FileTables>, t: string): Source {
    if files == [] then Listed
    else
      var last := files[|files| - 1];
      if t in last.created then CreatedBy(last.name) else Origin(files[..|files| - 1], t)
  }

  ghost predicate Tracks(known: map<string, Source>, existing: seq<string>, files: seq<FileTables>) {
    && (forall t :: t in known <==> KnownBefore(existing, files, t))
    && (forall t :: t in known ==> known[t] == Origin(files, t))
  }

  ghost predicate Follows(available: set<string>, existing: seq<string>, files: seq<FileTables>) {
    forall t :: t in available <==> AvailableBefore(existing, files, t)
  }

  lemma Before(files: seq<FileTables>, i: nat)
    requires i < |files|
    ensures files[..i + 1][..i] == files[..i] && files[..i + 1][i] == files[i]
  {
  }

  /** For each file, the tables that exist before it runs and where they come from. */
  method TablesBeforeEachFile(existing: seq<string>, files: seq<FileTables>) returns (out: seq<map<string, Source>>)
    ensures |out| == |files|
    ensures forall i :: 0 <= i < |files| ==> Tracks(out[i], existing, files[..i])
  {
    hide Tracks;
    var known: map<string, Source> := map t | t in existing :: Listed;
    TracksStart(known, existing);
    out := [];
    assert files[..0] == [];
    for i := 0 to |files|
      invariant |out| == i && Tracks(known, existing, files[..i])
      invariant forall j :: 0 <= j < i ==> Tracks(out[j], existing, files[..j])
    {
      out := out + [known];
      var left := Forget(known, files[i].dropped + files[i].renamed);
      var now := Learn(left, files[i].created, CreatedBy(files[i].name));
      TracksNext(known, now, existing, files, i);
      known := now;
    }
  }

  lemma TracksStart(known: map<string, Source>, existing: seq<string>)
    requires known == map t | t in existing :: Listed
    ensures Tracks(known, existing, [])
  {
  }

  method Forget(known: map<string, Source>, names: seq<string>) returns (r: map<string, Source>)
    ensures forall t :: t in r <==> t in known && t !in names
    ensures forall t :: t in r ==> r[t] == known[t]
  {
    r := known;
    for i := 0 to |names|
      invariant forall t :: t in r <==> t in known && t !in names[..i]
      invariant forall t :: t in r ==> r[t] == known[t]
    {
      r := r - {names[i]};
      assert names[..i + 1] == names[..i] + [names[i]];
    }
    assert names[..|names|] == names;
  }

  method Learn(known: map<string, Source>, names: seq<string>, source: Source) returns (r: map<string, Source>)
    ensures forall t :: t in r <==> t in known || t in names
    ensures forall t :: t in r ==> r[t] == if t in names then source else known[t]
  {
    r := known;
    for i := 0 to |names|
      invariant forall t :: t in r <==> t in known || t in names[..i]
      invariant forall t :: t in r ==> r[t] == if t in names[..i] then source else known[t]
    {
      r := r[names[i] := source];
      assert names[..i + 1] == names[..i] + [names[i]];
    }
    assert names[..|names|] == names;
  }

  lemma TracksNext(known: map<string, Source>, now: map<string, Source>, existing: seq<string>, files: seq<FileTables>,
                   i: nat)
    requires i < |files| && Tracks(known, existing, files[..i])
    requires forall t :: t in now <==>
               (t in known && t !in files[i].dropped + files[i].renamed) || t in files[i].created
    requires forall t :: t in now ==> now[t] == if t in files[i].created then CreatedBy(files[i].name) else known[t]
    ensures Tracks(now, existing, files[..i + 1])
  {
    Before(files, i);
    forall t ensures t in now <==> KnownBefore(existing, files[..i + 1], t) {
      assert t in files[i].dropped + files[i].renamed <==> Goes(files[i], t);
    }
  }

  /** The references of a file that point at nothing, as the settings report them. */
  ghost predicate Reports(r: CrossResult, setting: Setting, existing: seq<string>, before: seq<FileTables>,
                          f: FileTables) {
    && r.file == f.name
    && (forall t :: t in r.errors <==>
          setting != Off && setting != Warn && !f.allowed && t in f.references && !AvailableIn(existing, before, f, t))
    && (forall t :: t in r.warnings <==>
          setting != Off && (setting == Warn || f.allowed) && t in f.references && !AvailableIn(existing, before, f, t))
  }

  method CheckReferences(f: FileTables, available: set<string>, setting: Setting)
    returns (errors: seq<string>, warnings: seq<string>)
    ensures forall t :: t in errors <==>
              setting != Off && setting != Warn && !f.allowed && t in f.references && t !in available
    ensures forall t :: t in warnings <==>
              setting != Off && (setting == Warn || f.allowed) && t in f.references && t !in available
  {
    errors, warnings := [], [];
    for i := 0 to |f.references|
      invariant forall t :: t in errors <==>
        setting != Off && setting != Warn && !f.allowed && t in f.references[..i] && t !in available
      invariant forall t :: t in warnings <==>
        setting != Off && (setting == Warn || f.allowed) && t in f.references[..i] && t !in available
    {
      var t := f.references[i];
      assert f.references[..i + 1] == f.references[..i] + [t];
      if t !in available && setting != Off {
        if setting == Warn || f.allowed {
          warnings := warnings + [t];
        } else {
          errors := errors + [t];
        }
      }
    }
    assert f.references[..|f.references|] == f.references;
  }

  /** The foreign keys of all files, in run order: one result per file, before
      those without findings are left out. */
  method ValidateCrossFileFKDependencies(existing: seq<string>, files: seq<FileTables>, setting: Setting)
    returns (results: seq<CrossResult>)
    ensures |results| == |files|
    ensures forall i :: 0 <= i < |files| ==> Reports(results[i], setting, existing, files[..i], files[i])
  {
    hide Follows, Reports;
    var all: set<string> := set t | t in existing;
    FollowsStart(all, existing);
    results := [];
    assert files[..0] == [];
    for i := 0 to |files|
      invariant |results| == i && Follows(all, existing, files[..i])
      invariant forall j :: 0 <= j < i ==> Reports(results[j], setting, existing, files[..j], files[j])
    {
      var f := files[i];
      var created, gone := (set t | t in f.created), (set t | t in f.dropped + f.renamed);
      ghost var before := all;
      all := all - gone;
      var errors, warnings := CheckReferences(f, all + created, setting);
      ReportsHere(before, gone, created, existing, files[..i], f, setting, CrossResult(f.name, errors, warnings));
      results := results + [CrossResult(f.name, errors, warnings)];
      all := all + created;
      all := all - gone;
      FollowsNext(before, all, existing, files, i);
    }
  }

  lemma FollowsStart(all: set<string>, existing: seq<string>)
    requires all == set t | t in existing
    ensures Follows(all, existing, [])
  {
  }

  lemma FollowsNext(before: set<string>, after: set<string>, existing: seq<string>, files: seq<FileTables>, i: nat)
    requires i < |files| && Follows(before, existing, files[..i])
    requires var gone := set t | t in files[i].dropped + files[i].renamed;
             after == ((before - gone) + (set t | t in files[i].created)) - gone
    ensures Follows(after, existing, files[..i + 1])
  {
    Before(files, i);
    forall t ensures t in after <==> AvailableBefore(existing, files[..i + 1], t) {
      assert t in files[i].dropped + files[i].renamed <==> Goes(files[i], t);
    }
  }

  lemma ReportsHere(before: set<string>, gone: set<string>, created: set<string>, existing: seq<string>,
                    files: seq<FileTables>,
                    f: FileTables, setting: Setting, r: CrossResult)
    requires Follows(before, existing, files) && r.file == f.name
    requires created == (set t | t in f.created) && gone == set t | t in f.dropped + f.renamed
    requires forall t :: t in r.errors <==>
               setting != Off && setting != Warn && !f.allowed && t in f.references && t !in (before - gone) + created
    requires forall t :: t in r.warnings <==>
               setting != Off && (setting == Warn || f.allowed) && t in f.references && t !in (before - gone) + created
    ensures Reports(r, setting, existing, files, f)
  {
    forall t ensures t in (before - gone) + created <==> AvailableIn(existing, files, f, t) {
      assert t in f.dropped + f.renamed <==> Goes(f, t);
    }
  }

  // ---- how they differ ----

  /** The last file before the end that mentions t both creates and drops it. */
  ghost predicate CreatedAndGone(files: seq<FileTables>, t: string) {
    exists k :: 0 <= k < |files| && t in files[k].created && Goes(files[k], t)
                && forall m :: k < m < |files| ==> !Mentions(files[m], t)
  }

  /** Tables available to foreign keys are known tables, and a known table is not
      available exactly when the last file that mentions it both creates and
      drops it. */
  lemma {:induction false} TrackersDiffer(existing: seq<string>, files: seq<FileTables>, t: string)
    ensures AvailableBefore(existing, files, t) ==> KnownBefore(existing, files, t)
    ensures KnownBefore(existing, files, t) && !AvailableBefore(existing, files, t) <==> CreatedAndGone(files, t)
    decreases |files|
  {
    if files != [] {
      var n := |files| - 1;
      var last := files[n];
      TrackersDiffer(existing, files[..n], t);
      if !Mentions(last, t) {
        Unmentioned(files, t);
      } else if t in last.created && Goes(last, t) {
        assert CreatedAndGone(files, t);
      }
    }
  }

  lemma Unmentioned(files: seq<FileTables>, t: string)
    requires files != [] && !Mentions(files[|files| - 1], t)
    ensures CreatedAndGone(files, t) <==> CreatedAndGone(files[..|files| - 1], t)
  {
    var init := files[..|files| - 1];
    if CreatedAndGone(files, t) {
      var k :| 0 <= k < |files| && t in files[k].created && Goes(files[k], t)
               && forall m :: k < m < |files| ==> !Mentions(files[m], t);
      assert init[k] == files[k];
      assert forall m :: k < m < |init| ==> init[m] == files[m];
    }
    if CreatedAndGone(init, t) {
      var k :| 0 <= k < |init| && t in init[k].created && Goes(init[k], t)
               && forall m :: k < m < |init| ==> !Mentions(init[m], t);
      assert files[k] == init[k];
      forall m | k < m < |files| ensures !Mentions(files[m], t) {
        if m < |init| { assert files[m] == init[m]; }
      }
    }
  }

  /** The trackers agree on every file when no file creates and drops one table. */
  lemma TrackersAgree(existing: seq<string>, files: seq<FileTables>, i: nat)
    requires i <= |files| && forall k, t :: 0 <= k < i && t in files[k].created ==> !Goes(files[k], t)
    ensures forall t :: KnownBefore(existing, files[..i], t) <==> AvailableBefore(existing, files[..i], t)
  {
    forall t ensures KnownBefore(existing, files[..i], t) <==> AvailableBefore(existing, files[..i], t) {
      TrackersDiffer(existing, files[..i], t);
      forall k | 0 <= k < i && t in files[..i][k].created ensures !Goes(files[..i][k], t) {
        assert files[..i][k] == files[k];
      }
    }
  }

  /** The single-file check: the file drops the table and does not create it. */
  predicate DroppedTableReferenced(f: FileTables, t: string) {
    t in f.references && t in f.dropped && t !in f.created
  }

  /** What the single-file check rejects is unavailable to the cross-file check
      too, which reports it unless the rule or an allowance says otherwise. */
  lemma SingleFileRejectsMore(existing: seq<string>, before: seq<FileTables>, f: FileTables, t: string,
                              r: CrossResult, setting: Setting)
    requires DroppedTableReferenced(f, t) && Reports(r, setting, existing, before, f)
    ensures !AvailableIn(existing, before, f, t)
    ensures setting != Off ==> t in r.errors || t in r.warnings
    ensures setting != Off && setting != Warn && !f.allowed ==> t in r.errors
  {
    assert Goes(f, t);
  }
}
