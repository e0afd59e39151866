/** The changelog of a versioned migration project and what its commands may do
    to it, for both databases: which files are pending, applied, out of order. */
module Changelog {
  import opened Text

  /** A changelog row; rows of older versions have no checksum. */
  datatype Row = Row(appliedAt: int, checksum: Option<string>)

  /** The rows by migration file. */
  type Log = map<string, Row>

  /** File contents by name, as they are on disk now; an unreadable file is missing. */
  type Disk = map<string, string>

  predicate Distinct(files: seq<string>) {
    forall j, k :: 0 <= j < k < |files| ==> files[j] != files[k]
  }

  // ---- what status reports ----

  function Pending(files: seq<string>, log: Log): seq<string> {
    if files == [] then []
    else (if files[0] in log then [] else [files[0]]) + Pending(files[1..], log)
  }

  function Applied(files: seq<string>, log: Log): seq<string> {
    if files == [] then []
    else (if files[0] in log then [files[0]] else []) + Applied(files[1..], log)
  }

  /** Applied files that sort behind a pending one. */
  function OutOfOrder(files: seq<string>, log: Log, seenPending: bool): seq<string> {
    if files == [] then []
    else if files[0] in log then (if seenPending then [files[0]] else []) + OutOfOrder(files[1..], log, seenPending)
    else OutOfOrder(files[1..], log, true)
  }

  /** The recorded checksum and the file on disk differ. */
  predicate Differs(f: string, log: Log, disk: Disk, hash: string -> string) {
    f in log && f in disk && log[f].checksum.Some? && log[f].checksum.value != hash(disk[f])
  }

  function Mismatches(files: seq<string>, log: Log, disk: Disk, hash: string -> string): seq<string> {
    if files == [] then []
    else (if Differs(files[0], log, disk, hash) then [files[0]] else []) + Mismatches(files[1..], log, disk, hash)
  }

  /** A row without a checksum whose file can be read. */
  predicate LacksChecksum(f: string, log: Log, disk: Disk) {
    f in log && f in disk && log[f].checksum.None?
  }

  function Unbaselined(files: seq<string>, log: Log, disk: Disk): seq<string> {
    if files == [] then []
    else (if LacksChecksum(files[0], log, disk) then [files[0]] else []) + Unbaselined(files[1..], log, disk)
  }

  // ---- prefixes ----

  /** Exactly the first n files are applied. */
  predicate Prefix(files: seq<string>, log: Log, n: nat) {
    n <= |files| && forall k :: 0 <= k < |files| ==> (files[k] in log <==> k < n)
  }

  lemma {:induction false} PendingOfPrefix(files: seq<string>, log: Log, n: nat)
    requires Prefix(files, log, n)
    ensures Pending(files, log) == files[n..] && Applied(files, log) == files[..n]
    ensures OutOfOrder(files, log, false) == [] && (n == 0 ==> OutOfOrder(files, log, true) == [])
    decreases |files|
  {
    if files != [] {
      var rest, m := files[1..], if n == 0 then 0 else n - 1;
      forall k | 0 <= k < |rest| ensures rest[k] in log <==> k < m {
        assert rest[k] == files[k + 1];
      }
      PendingOfPrefix(rest, log, m);
      assert rest[m..] == files[m + 1..];
      assert n > 0 ==> files[..n] == [files[0]] + rest[..m];
    }
  }

  lemma {:induction false} LateFilesShow(files: seq<string>, log: Log)
    requires OutOfOrder(files, log, true) == []
    ensures forall k :: 0 <= k < |files| ==> files[k] !in log
    decreases |files|
  {
    if files != [] {
      LateFilesShow(files[1..], log);
      assert forall k :: 0 < k < |files| ==> files[k] == files[1..][k - 1];
    }
  }

  lemma {:induction false} InOrderIsPrefix(files: seq<string>, log: Log) returns (n: nat)
    requires OutOfOrder(files, log, false) == []
    ensures Prefix(files, log, n)
    decreases |files|
  {
    if files == [] {
      n := 0;
    } else if files[0] in log {
      n := InOrderIsPrefix(files[1..], log);
      n := n + 1;
      assert forall k :: 0 < k < |files| ==> files[k] == files[1..][k - 1];
    } else {
      n := 0;
      LateFilesShow(files[1..], log);
      assert forall k :: 0 < k < |files| ==> files[k] == files[1..][k - 1];
    }
  }

  /** The consistency gate's list is empty exactly when the applied files are a
      prefix of the file list. */
  lemma OutOfOrderMeansNoPrefix(files: seq<string>, log: Log)
    ensures OutOfOrder(files, log, false) == [] <==> exists n :: Prefix(files, log, n)
  {
    if OutOfOrder(files, log, false) == [] {
      var n := InOrderIsPrefix(files, log);
    } else if n :| Prefix(files, log, n) {
      PendingOfPrefix(files, log, n);
    }
  }

  // ---- selection ----

  function StripExtension(f: string): string {
    if |f| >= 4 && f[|f| - 4..] == ".sql" then f[..|f| - 4]
    else if |f| >= 3 && f[|f| - 3..] == ".js" then f[..|f| - 3] else f
  }

  predicate Includes(f: string, needle: string) {
    |needle| <= |f| && (f[..|needle|] == needle || (f != "" && Includes(f[1..], needle)))
  }

  predicate Exact(f: string, needle: string) {
    f == needle || StripExtension(f) == needle
  }

  /** Index of the first exact match, or |list|. */
  function FindExact(list: seq<string>, needle: string): (i: nat)
    ensures i <= |list| && (i < |list| ==> Exact(list[i], needle))
  {
    if list == [] || Exact(list[0], needle) then 0 else FindExact(list[1..], needle) + 1
  }

  lemma {:induction false} FindExactFirst(list: seq<string>, needle: string, k: nat)
    requires k < |list| && Exact(list[k], needle)
    ensures FindExact(list, needle) <= k
    decreases |list|
  {
    hide Exact;
    if k > 0 { FindExactFirst(list[1..], needle, k - 1); }
  }

  function FindPart(list: seq<string>, needle: string): (i: nat)
    ensures i <= |list| && (i < |list| ==> Includes(list[i], needle))
  {
    if list == [] || Includes(list[0], needle) then 0 else FindPart(list[1..], needle) + 1
  }

  /** An exact name first, then a substring. */
  function Find(list: seq<string>, needle: string): (i: nat)
    ensures i <= |list|
  {
    var e := FindExact(list, needle);
    if e < |list| then e else FindPart(list, needle)
  }

  datatype Selection = Selected(files: seq<string>) | NotFound(needle: string)

  /** --target (up to and including), then --only (just that one); "" is absent. */
  function SelectPending(pending: seq<string>, target: string, only: string): Selection {
    if target != "" && Find(pending, target) == |pending| then NotFound(target)
    else
      var selected := if target == "" then pending else pending[..Find(pending, target) + 1];
      if only == "" then Selected(selected)
      else if Find(selected, only) == |selected| then NotFound(only)
      else Selected([selected[Find(selected, only)]])
  }

  /** Without --only a run takes a first part of the pending files, and one that
      names a pending file as its target ends with it. */
  lemma SelectsFirstPart(pending: seq<string>, target: string)
    ensures var s := SelectPending(pending, target, "");
            && (s.Selected? ==> |s.files| <= |pending| && s.files == pending[..|s.files|])
            && (target == "" ==> s == Selected(pending))
            && (target != "" && target in pending && (forall f :: f in pending ==> StripExtension(f) != target) ==>
                  s.Selected? && s.files != [] && s.files[|s.files| - 1] == target)
  {
    hide Includes, FindPart, FindExact, Exact, StripExtension;
    if target != "" && target in pending && forall f :: f in pending ==> StripExtension(f) != target {
      FindsItself(pending, target);
    }
  }

  lemma ExactItself(f: string, needle: string)
    ensures Exact(needle, needle)
    ensures Exact(f, needle) && StripExtension(f) != needle ==> f == needle
  {
  }

  lemma FindsItself(pending: seq<string>, target: string)
    requires target in pending && forall f :: f in pending ==> StripExtension(f) != target
    ensures FindExact(pending, target) < |pending| && pending[FindExact(pending, target)] == target
  {
    hide Includes, FindPart, Exact, StripExtension;
    var k :| 0 <= k < |pending| && pending[k] == target;
    ExactItself(target, target);
    FindExactFirst(pending, target, k);
    var i := FindExact(pending, target);
    assert pending[i] in pending;
    ExactItself(pending[i], target);
  }

  lemma {:induction false} FindPartFirst(list: seq<string>, needle: string, k: nat)
    requires k < |list| && Includes(list[k], needle)
    ensures FindPart(list, needle) <= k
    decreases |list|
  {
    hide Includes;
    if k > 0 { FindPartFirst(list[1..], needle, k - 1); }
  }

  /** A run with a target takes the pending files up to the first one of that name,
      with or without its extension, or if there is none up to the first that
      contains it; no file is taken when none does. */
  lemma SelectsUpTo(pending: seq<string>, target: string)
    requires target != ""
    ensures var s := SelectPending(pending, target, "");
            var found := exists k :: 0 <= k < |pending| && Exact(pending[k], target);
            && (s == NotFound(target)
                <==> !found && forall k :: 0 <= k < |pending| ==> !Includes(pending[k], target))
            && (s != NotFound(target) ==>
                  && s.Selected? && 0 < |s.files| <= |pending| && s.files == pending[..|s.files|]
                  && var last := |s.files| - 1;
                     if found then
                       Exact(pending[last], target) && forall k :: 0 <= k < last ==> !Exact(pending[k], target)
                     else
                       Includes(pending[last], target) && forall k :: 0 <= k < last ==> !Includes(pending[k], target))
  {
    hide Exact, Includes;
    forall k | 0 <= k < |pending| && Exact(pending[k], target) ensures FindExact(pending, target) <= k {
      FindExactFirst(pending, target, k);
    }
    forall k | 0 <= k < |pending| && Includes(pending[k], target) ensures FindPart(pending, target) <= k {
      FindPartFirst(pending, target, k);
    }
  }

  predicate EndsIn(f: string, suffix: string) {
    |suffix| <= |f| && f[|f| - |suffix|..] == suffix
  }

  lemma StemIs(f: string, suffix: string, needle: string)
    ensures f == needle + suffix <==> EndsIn(f, suffix) && f[..|f| - |suffix|] == needle
  {
    if EndsIn(f, suffix) { assert f == f[..|f| - |suffix|] + f[|f| - |suffix|..]; }
  }

  lemma OneSuffix(f: string)
    requires EndsIn(f, ".js")
    ensures !EndsIn(f, ".sql")
  {
    assert f[|f| - 3..][2] == f[|f| - 1];
    if |f| >= 4 { assert f[|f| - 4..][3] == f[|f| - 1]; }
  }

  lemma StripIs(f: string)
    ensures StripExtension(f) == if EndsIn(f, ".sql") then f[..|f| - 4]
                                 else if EndsIn(f, ".js") then f[..|f| - 3] else f
  {
  }

  /** A name is met by the file of that name and by the one with .sql or .js behind it. */
  lemma ExactIs(f: string, needle: string)
    ensures Exact(f, needle) <==> f == needle || f == needle + ".sql" || f == needle + ".js"
  {
    StemIs(f, ".sql", needle);
    StemIs(f, ".js", needle);
    StripIs(f);
    hide EndsIn, StripExtension;
    if EndsIn(f, ".js") { OneSuffix(f); }
  }

  /** A part of a name stands somewhere in it. */
  lemma {:induction false} IncludesIs(f: string, needle: string)
    ensures Includes(f, needle) <==> exists i :: 0 <= i && i + |needle| <= |f| && f[i..][..|needle|] == needle
    decreases |f|
  {
    if Includes(f, needle) {
      if f[..|needle|] == needle {
        assert f[0..][..|needle|] == needle;
      } else {
        IncludesIs(f[1..], needle);
        var i :| 0 <= i && i + |needle| <= |f[1..]| && f[1..][i..][..|needle|] == needle;
        assert f[1..][i..] == f[i + 1..];
        assert f[i + 1..][..|needle|] == needle;
      }
    }
    if exists i :: 0 <= i && i + |needle| <= |f| && f[i..][..|needle|] == needle {
      var i :| 0 <= i && i + |needle| <= |f| && f[i..][..|needle|] == needle;
      if i == 0 {
        assert f[0..] == f;
      } else {
        assert f[1..][i - 1..] == f[i..];
        IncludesIs(f[1..], needle);
      }
    }
  }

  // ---- what to roll back ----

  datatype DbType = MariaDb | MongoDb

  function Reverse(s: seq<string>): (r: seq<string>)
    ensures |r| == |s| && forall k :: 0 <= k < |s| ==> r[k] == s[|s| - 1 - k]
  {
    if s == [] then [] else [s[|s| - 1]] + Reverse(s[..|s| - 1])
  }

  function IndexOf(files: seq<string>, f: string): nat {
    if files == [] || files[0] == f then 0 else IndexOf(files[1..], f) + 1
  }

  lemma {:induction false} IndexOfAt(files: seq<string>, k: nat)
    requires Distinct(files) && k < |files|
    ensures IndexOf(files, files[k]) == k
    decreases |files|
  {
    if k > 0 {
      assert files[1..][k - 1] == files[k];
      IndexOfAt(files[1..], k - 1);
    }
  }

  /** Applied later, or at the same time and later in file order. */
  predicate Newer(files: seq<string>, log: Log, f: string, g: string)
    requires f in log && g in log
  {
    || log[f].appliedAt > log[g].appliedAt
    || (log[f].appliedAt == log[g].appliedAt && IndexOf(files, f) > IndexOf(files, g))
  }

  predicate AllIn(list: seq<string>, log: Log) {
    forall k :: 0 <= k < |list| ==> list[k] in log
  }

  function Insert(files: seq<string>, log: Log, f: string, list: seq<string>): (r: seq<string>)
    requires f in log && AllIn(list, log)
    ensures AllIn(r, log) && multiset(r) == multiset(list) + multiset{f}
  {
    if list == [] || Newer(files, log, f, list[0]) then [f] + list
    else
      assert list == [list[0]] + list[1..];
      [list[0]] + Insert(files, log, f, list[1..])
  }

  /** The list sorted by Newer. */
  function SortNewest(files: seq<string>, log: Log, list: seq<string>): (r: seq<string>)
    requires AllIn(list, log)
    ensures AllIn(r, log) && multiset(r) == multiset(list)
  {
    if list == [] then []
    else
      assert list == list[..|list| - 1] + [list[|list| - 1]];
      Insert(files, log, list[|list| - 1], SortNewest(files, log, list[..|list| - 1]))
  }

  /** slice(0, count). */
  function Take(list: seq<string>, count: int): (r: seq<string>)
    ensures |r| <= |list| && r == list[..|r|]
  {
    if count >= 0 then (if count <= |list| then list[..count] else list)
    else if |list| + count >= 0 then list[..|list| + count] else []
  }

  lemma {:induction false} AppliedIn(files: seq<string>, log: Log)
    ensures AllIn(Applied(files, log), log)
    decreases |files|
  {
    if files != [] { AppliedIn(files[1..], log); }
  }

  /** The applied files, most recent first: MariaDB reverses the file order,
      MongoDB sorts by time. */
  /** A count takes so many, or all; a negative one leaves so many out at the end. */
  lemma TakeIs(list: seq<string>, count: int)
    ensures |Take(list, count)| == if 0 <= count then (if count < |list| then count else |list|)
                                   else if -count < |list| then |list| + count else 0
  {
  }

  function NewestFirst(db: DbType, files: seq<string>, log: Log): seq<string> {
    match db
    case MariaDb => Reverse(Applied(files, log))
    case MongoDb =>
      AppliedIn(files, log);
      SortNewest(files, log, Applied(files, log))
  }

  /** What `down` would roll back. */
  function Plan(db: DbType, files: seq<string>, log: Log, count: int, target: string): Selection {
    var newest := NewestFirst(db, files, log);
    if target != "" then SelectPending(newest, target, "") else Selected(Take(newest, count))
  }

  /** The applied files were applied in file order. */
  predicate InTime(files: seq<string>, log: Log) {
    forall j, k :: 0 <= j < k < |files| && files[j] in log && files[k] in log ==>
      log[files[j]].appliedAt <= log[files[k]].appliedAt
  }

  /** The places, from i on, of the applied files in the file list. */
  ghost function Places(files: seq<string>, log: Log, i: nat): (r: seq<nat>)
    requires i <= |files|
    ensures forall k :: 0 <= k < |r| ==> i <= r[k] < |files|
    ensures forall j, k :: 0 <= j < k < |r| ==> r[j] < r[k]
    decreases |files| - i
  {
    if i == |files| then []
    else (if files[i] in log then [i] else []) + Places(files, log, i + 1)
  }

  /** list holds the files at the increasing places ps. */
  ghost predicate Picks(files: seq<string>, list: seq<string>, ps: seq<nat>) {
    && |ps| == |list|
    && (forall t :: 0 <= t < |ps| ==> ps[t] < |files| && list[t] == files[ps[t]])
    && forall t, u :: 0 <= t < u < |ps| ==> ps[t] < ps[u]
  }

  lemma {:induction false} AppliedPicks(files: seq<string>, log: Log, i: nat)
    requires i <= |files|
    ensures Picks(files, Applied(files[i..], log), Places(files, log, i))
    decreases |files| - i
  {
    if i < |files| {
      AppliedPicks(files, log, i + 1);
      assert files[i..][1..] == files[i + 1..];
    }
  }

  lemma {:induction false} SortIsReverse(files: seq<string>, log: Log, list: seq<string>, ps: seq<nat>)
    requires Distinct(files) && InTime(files, log) && AllIn(list, log) && Picks(files, list, ps)
    ensures SortNewest(files, log, list) == Reverse(list)
    decreases |list|
  {
    if list != [] {
      var n := |list| - 1;
      SortIsReverse(files, log, list[..n], ps[..n]);
      if n > 0 {
        IndexOfAt(files, ps[n]);
        IndexOfAt(files, ps[n - 1]);
        assert Reverse(list[..n])[0] == list[n - 1];
        assert Newer(files, log, list[n], list[n - 1]);
      }
    }
  }

  /** When the files were applied in file order, both databases roll back the
      same files in the same order. */
  lemma PlansAgree(files: seq<string>, log: Log, count: int, target: string)
    requires Distinct(files) && InTime(files, log)
    ensures Plan(MongoDb, files, log, count, target) == Plan(MariaDb, files, log, count, target)
  {
    AppliedIn(files, log);
    AppliedPicks(files, log, 0);
    assert files[0..] == files;
    SortIsReverse(files, log, Applied(files, log), Places(files, log, 0));
  }

  /** Sorted by Newer, as the source's comparison orders it. */
  predicate Sorted(files: seq<string>, log: Log, list: seq<string>)
    requires AllIn(list, log)
  {
    forall j, k :: 0 <= j < k < |list| ==> Newer(files, log, list[j], list[k]) || list[j] == list[k]
  }

  lemma {:induction false} InsertSorted(files: seq<string>, log: Log, f: string, list: seq<string>)
    requires f in log && AllIn(list, log) && Sorted(files, log, list)
    requires forall k :: 0 <= k < |list| ==> f in files && list[k] in files
    requires Distinct(files)
    ensures Sorted(files, log, Insert(files, log, f, list))
    decreases |list|
  {
    if list != [] && !Newer(files, log, f, list[0]) {
      InsertSorted(files, log, f, list[1..]);
      var r := Insert(files, log, f, list[1..]);
      forall k | 0 <= k < |r| ensures Newer(files, log, list[0], r[k]) || list[0] == r[k] {
        assert r[k] in multiset(list[1..]) + multiset{f};
        if r[k] == f {
          var i :| 0 <= i < |files| && files[i] == f;
          var j :| 0 <= j < |files| && files[j] == list[0];
          IndexOfAt(files, i);
          IndexOfAt(files, j);
        }
      }
    }
  }

  /** SortNewest sorts, and (by its contract) neither adds nor drops a file. */
  lemma {:induction false} SortNewestSorts(files: seq<string>, log: Log, list: seq<string>)
    requires Distinct(files) && AllIn(list, log) && forall k :: 0 <= k < |list| ==> list[k] in files
    ensures Sorted(files, log, SortNewest(files, log, list))
    decreases |list|
  {
    hide Distinct, AllIn, Sorted, Insert;
    if list == [] {
      NothingSorted(files, log);
    } else {
      var n := |list| - 1;
      InitIn(list, log);
      SortNewestSorts(files, log, list[..n]);
      SortedKeeps(files, log, list[..n]);
      InsertSorted(files, log, list[n], SortNewest(files, log, list[..n]));
    }
  }

  lemma NothingSorted(files: seq<string>, log: Log)
    ensures AllIn([], log) && Sorted(files, log, SortNewest(files, log, []))
  {
  }

  lemma InitIn(list: seq<string>, log: Log)
    requires list != [] && AllIn(list, log)
    ensures AllIn(list[..|list| - 1], log) && list[|list| - 1] in log
  {
  }

  /** A sorted list holds the files it was made of. */
  lemma SortedKeeps(files: seq<string>, log: Log, list: seq<string>)
    requires AllIn(list, log) && forall k :: 0 <= k < |list| ==> list[k] in files
    ensures forall k :: 0 <= k < |SortNewest(files, log, list)| ==> SortNewest(files, log, list)[k] in files
  {
    var r := SortNewest(files, log, list);
    hide SortNewest, AllIn;
    forall k | 0 <= k < |r| ensures r[k] in files {
      assert r[k] in multiset(r) && r[k] in multiset(list);
    }
  }

  /** Every applied file has its place. */
  lemma {:induction false} PlaceOf(files: seq<string>, log: Log, i: nat, j: nat) returns (t: nat)
    requires i <= j < |files| && files[j] in log
    ensures t < |Places(files, log, i)| && Places(files, log, i)[t] == j
    decreases |files| - i
  {
    if i == j {
      t := 0;
    } else {
      t := PlaceOf(files, log, i + 1, j);
      if files[i] in log { t := t + 1; }
    }
  }

  lemma TakeAll(list: seq<string>)
    ensures Take(list, |list|) == list
  {
  }

  lemma AppliedAreFiles(files: seq<string>, log: Log, list: seq<string>, ps: seq<nat>)
    requires Picks(files, list, ps)
    ensures forall k :: 0 <= k < |list| ==> list[k] in files
  {
  }

  /** Backwards order is sorted only when the files were applied in file order. */
  lemma ReversedInTime(files: seq<string>, log: Log)
    requires Distinct(files) && AllIn(Applied(files, log), log)
    requires SortNewest(files, log, Applied(files, log)) == Reverse(Applied(files, log))
    ensures InTime(files, log)
  {
    var list := Applied(files, log);
    AppliedPicks(files, log, 0);
    assert files[0..] == files;
    AppliedAreFiles(files, log, list, Places(files, log, 0));
    SortNewestSorts(files, log, list);
    hide *;
    forall j, k | 0 <= j < k < |files| && files[j] in log && files[k] in log
      ensures log[files[j]].appliedAt <= log[files[k]].appliedAt
    {
      var t := PlaceOf(files, log, 0, j);
      var u := PlaceOf(files, log, 0, k);
      PickedThere(files, list, Places(files, log, 0), t, u);
      ReversedAt(list, t);
      ReversedAt(list, u);
      LaterNotOlder(files, log, list, Reverse(list), t, u);
    }
    IsInTime(files, log);
  }

  lemma IsInTime(files: seq<string>, log: Log)
    requires forall j, k :: 0 <= j < k < |files| && files[j] in log && files[k] in log ==>
               log[files[j]].appliedAt <= log[files[k]].appliedAt
    ensures InTime(files, log)
  {
  }

  lemma PickedThere(files: seq<string>, list: seq<string>, ps: seq<nat>, t: nat, u: nat)
    requires Picks(files, list, ps) && t < |ps| && u < |ps| && ps[t] < ps[u]
    ensures t < u < |list| && ps[t] < |files| && ps[u] < |files| && list[t] == files[ps[t]] && list[u] == files[ps[u]]
  {
  }

  lemma ReversedAt(list: seq<string>, t: nat)
    requires t < |list|
    ensures |Reverse(list)| == |list| && Reverse(list)[|list| - 1 - t] == list[t]
  {
    hide Reverse;
  }

  lemma EarlierNewer(files: seq<string>, log: Log, r: seq<string>, i: nat, k: nat)
    requires AllIn(r, log) && Sorted(files, log, r) && i < k < |r|
    ensures r[i] in log && r[k] in log && log[r[i]].appliedAt >= log[r[k]].appliedAt
  {
    assert Newer(files, log, r[i], r[k]) || r[i] == r[k];
  }

  lemma LaterNotOlder(files: seq<string>, log: Log, list: seq<string>, r: seq<string>, t: nat, u: nat)
    requires AllIn(r, log) && Sorted(files, log, r) && t < u < |list| == |r|
    requires r[|list| - 1 - t] == list[t] && r[|list| - 1 - u] == list[u]
    ensures list[t] in log && list[u] in log && log[list[t]].appliedAt <= log[list[u]].appliedAt
  {
    hide *;
    EarlierNewer(files, log, r, |list| - 1 - u, |list| - 1 - t);
  }

  /** The two databases roll back the same files, whatever the count, exactly when
      the files were applied in file order. */
  lemma PlansAgreeExactly(files: seq<string>, log: Log)
    requires Distinct(files)
    ensures InTime(files, log)
            <==> forall count :: Plan(MongoDb, files, log, count, "") == Plan(MariaDb, files, log, count, "")
  {
    AppliedIn(files, log);
    if InTime(files, log) {
      forall count ensures Plan(MongoDb, files, log, count, "") == Plan(MariaDb, files, log, count, "") {
        PlansAgree(files, log, count, "");
      }
    } else if forall count :: Plan(MongoDb, files, log, count, "") == Plan(MariaDb, files, log, count, "") {
      var n := |Applied(files, log)|;
      assert Plan(MongoDb, files, log, n, "") == Plan(MariaDb, files, log, n, "");
      SameLength(files, log);
      TakeAll(NewestFirst(MongoDb, files, log));
      TakeAll(NewestFirst(MariaDb, files, log));
      ReversedInTime(files, log);
    }
  }

  lemma SameLength(files: seq<string>, log: Log)
    requires AllIn(Applied(files, log), log)
    ensures |NewestFirst(MongoDb, files, log)| == |NewestFirst(MariaDb, files, log)| == |Applied(files, log)|
  {
    var list := Applied(files, log);
    assert |multiset(SortNewest(files, log, list))| == |SortNewest(files, log, list)|;
    assert |multiset(list)| == |list|;
  }
}
