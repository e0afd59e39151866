/** The run's e-mail: one event per placeholder, one row per account, and what
    the rows say about the passwords the server holds. */
module CredentialMail {
  import opened Text
  import opened DclAccounts
  import opened DclServer

  datatype Kind = New | Changed | Unchanged

  datatype Event = Event(kind: Kind, row: string, password: Option<string>, unmatched: bool)

  /** One row of the e-mail. */
  datatype Row = Row(kind: Kind, password: Option<string>, unmatched: bool, superseded: nat)

  /** How a row names an account. */
  function RowOf(a: Account): string {
    if a.host == "" then a.name else a.name + "@" + a.host
  }

  function Decimal(n: nat): string {
    (if n < 10 then "" else Decimal(n / 10)) + [('0' as int + n % 10) as char]
  }

  function Unrecognized(statement: nat): string {
    "(unrecognized account, statement " + Decimal(statement + 1) + ")"
  }

  // ---- events ----

  function PasswordFor(passwords: seq<string>, i: nat): Option<string> {
    if i < |passwords| then Some(passwords[i])
    else if passwords != [] then Some(passwords[|passwords| - 1]) else None
  }

  /** What is reported for entry i: nothing was set for an account that was there
      and is not replaced; otherwise the password, if it can be told which. */
  function EventOf(e: Entry, passwords: seq<string>, i: nat, existing: set<string>, aligned: bool): Event {
    if e.owner.None? then
        Event(New, Unrecognized(e.statement), if i < |passwords| then Some(passwords[i]) else None, false)
    else
      var wasThere := AccountKey(e.owner.value) in existing;
      var row := RowOf(e.owner.value);
      if !e.isReset && !e.overwrites && wasThere then Event(Unchanged, row, None, false)
      else
        Event(if e.isReset || (e.overwrites && wasThere) then Changed else New, row,
              if aligned then PasswordFor(passwords, i) else None, !aligned)
  }

  function EventsOf(entries: seq<Entry>, passwords: seq<string>, existing: set<string>, aligned: bool): (r: seq<Event>)
    ensures |r| == |entries|
  {
    seq(|entries|, i requires 0 <= i < |entries| => EventOf(entries[i], passwords, i, existing, aligned))
  }

  /** The accounts of the file's CREATE USER entries that the server knows. */
  function Existing(entries: seq<Entry>, accounts: Accounts): set<string> {
    set i | 0 <= i < |entries| && entries[i].owner.Some? && !entries[i].isReset
            && AccountKey(entries[i].owner.value) in accounts :: AccountKey(entries[i].owner.value)
  }

  // ---- rows ----

  predicate Tells(e: Event) {
    e.unmatched || (e.password.Some? && e.password.value != "")
  }

  function Merged(prev: Option<Row>, e: Event): Row {
    if prev.None? then Row(e.kind, e.password, e.unmatched, 0)
    else if Tells(e) then
      Row(if prev.value.kind == New then New else e.kind, e.password, e.unmatched,
          prev.value.superseded + if prev.value.password.Some? && prev.value.password.value != "" then 1 else 0)
    else prev.value
  }

  function RowAt(rows: map<string, Row>, row: string): Option<Row> {
    if row in rows then Some(rows[row]) else None
  }

  function Rows(events: seq<Event>): map<string, Row> {
    if events == [] then map[]
    else
      var e := events[|events| - 1];
      var rows := Rows(events[..|events| - 1]);
      rows[e.row := Merged(RowAt(rows, e.row), e)]
  }

  /** The per-account merge, as the loop over the events builds it. */
  method BuildRows(events: seq<Event>) returns (rows: map<string, Row>)
    ensures rows == Rows(events)
  {
    rows := map[];
    for i := 0 to |events|
      invariant rows == Rows(events[..i])
    {
      var e := events[i];
      assert events[..i + 1][..i] == events[..i];
      if e.row !in rows {
        rows := rows[e.row := Row(e.kind, e.password, e.unmatched, 0)];
      } else if Tells(e) {
        var prev := rows[e.row];
        rows := rows[e.row := Row(if prev.kind == New then New else e.kind, e.password, e.unmatched,
                                  prev.superseded + if prev.password.Some? && prev.password.value != "" then 1 else 0)];
      } else {
        assert rows[e.row := rows[e.row]] == rows;
      }
    }
    assert events[..|events|] == events;
  }

  /** The last event of a row that tells something about its password. */
  function LastTold(events: seq<Event>, row: string): Option<Event> {
    if events == [] then None
    else
      var e := events[|events| - 1];
      if e.row == row && Tells(e) then Some(e) else LastTold(events[..|events| - 1], row)
  }

  /** A row shows the last password its account was given in the run, and none
      when it could not be told which that was. */
  lemma {:induction false} RowShowsLast(events: seq<Event>, row: string)
    ensures row in Rows(events) <==> exists i :: 0 <= i < |events| && events[i].row == row
    ensures LastTold(events, row).Some? ==>
              row in Rows(events) && Rows(events)[row].password == LastTold(events, row).value.password
              && Rows(events)[row].unmatched == LastTold(events, row).value.unmatched
    ensures LastTold(events, row).None? && row in Rows(events) ==>
              !Rows(events)[row].unmatched
                  && (Rows(events)[row].password.Some? ==> Rows(events)[row].password.value == "")
    decreases |events|
  {
    if events != [] {
      var n := |events| - 1;
      RowShowsLast(events[..n], row);
      if exists i :: 0 <= i < n && events[..n][i].row == row {
        var i :| 0 <= i < n && events[..n][i].row == row;
        assert events[i].row == row;
      }
      if exists i :: 0 <= i < |events| && events[i].row == row {
        var i :| 0 <= i < |events| && events[i].row == row;
        assert i < n ==> events[..n][i].row == row;
      }
    }
  }

  /** The events of one row, in order. */
  function RowEvents(events: seq<Event>, row: string): seq<Event> {
    if events == [] then []
    else
      var n := |events| - 1;
      RowEvents(events[..n], row) + if events[n].row == row then [events[n]] else []
  }

  predicate Shows(password: Option<string>) {
    password.Some? && password.value != ""
  }

  /** How many of these events come with a password. */
  function Showing(events: seq<Event>): nat {
    if events == [] then 0
    else Showing(events[..|events| - 1]) + if Shows(events[|events| - 1].password) then 1 else 0
  }

  predicate AnyNew(events: seq<Event>) {
    exists i :: 0 <= i < |events| && events[i].kind.New? && Tells(events[i])
  }

  lemma AnyNewPush(events: seq<Event>, e: Event)
    ensures AnyNew(events + [e]) <==> AnyNew(events) || (e.kind.New? && Tells(e))
  {
    var all := events + [e];
    if AnyNew(events) {
      var i :| 0 <= i < |events| && events[i].kind.New? && Tells(events[i]);
      assert all[i] == events[i];
    }
    assert all[|events|] == e;
  }

  /** What one more event does to its row: its kind, and how many of the passwords
      told are superseded. */
  lemma MergedIs(prev: Row, rs: seq<Event>, e: Event)
    requires rs != [] && (prev.kind.New? <==> rs[0].kind.New? || AnyNew(rs))
    requires prev.superseded + (if Shows(prev.password) then 1 else 0) == Showing(rs)
    ensures var r, all := Merged(Some(prev), e), rs + [e];
            && (r.kind.New? <==> all[0].kind.New? || AnyNew(all))
            && (!r.kind.New? ==> r.kind == if Tells(e) then e.kind else prev.kind)
            && r.superseded + (if Shows(r.password) then 1 else 0) == Showing(all)
  {
    AnyNewPush(rs, e);
    assert (rs + [e])[..|rs|] == rs;
  }

  /** A row says `new` exactly when the account's first event does or a later one
      that tells a password; otherwise it says what the last of these says.  Every
      password told for the account is the one shown or counts as superseded. */
  lemma {:induction false} RowSums(events: seq<Event>, row: string)
    ensures var rs := RowEvents(events, row);
            && (rs == [] <==> row !in Rows(events))
            && (rs != [] ==>
                  var r := Rows(events)[row];
                  && (r.kind.New? <==> rs[0].kind.New? || AnyNew(rs))
                  && (!r.kind.New? ==>
                        r.kind == if LastTold(events, row).Some? then LastTold(events, row).value.kind else rs[0].kind)
                  && r.superseded + (if Shows(r.password) then 1 else 0) == Showing(rs))
    decreases |events|
  {
    hide Merged, AnyNew, Showing;
    if events != [] {
      var n := |events| - 1;
      RowSums(events[..n], row);
      if events[n].row != row {
        assert RowEvents(events, row) == RowEvents(events[..n], row);
      } else {
        var rs, e := RowEvents(events[..n], row), events[n];
        assert RowEvents(events, row) == rs + [e];
        if rs == [] {
          assert rs + [e] == [e];
          RowShowsLast(events[..n], row);
          FirstMerged(e);
        } else {
          MergedIs(Rows(events[..n])[row], rs, e);
        }
      }
    }
  }

  lemma FirstMerged(e: Event)
    ensures var r := Merged(None, e);
            && (r.kind.New? <==> e.kind.New? || AnyNew([e])) && r.kind == e.kind
            && r.superseded + (if Shows(r.password) then 1 else 0) == Showing([e])
  {
    assert [e][..0] == [];
  }

  lemma {:induction false} RowEventsSplit(first: seq<Event>, second: seq<Event>, row: string)
    ensures RowEvents(first + second, row) == RowEvents(first, row) + RowEvents(second, row)
    decreases |second|
  {
    if second == [] {
      assert first + second == first;
    } else {
      var n := |second| - 1;
      RowEventsSplit(first, second[..n], row);
      assert (first + second)[..|first + second| - 1] == first + second[..n];
    }
  }

  // ---- what is handed out ----

  /** Every generated password that has an entry is handed out with it, but for an
      account that is there and keeps its own; an account without one of its own is
      told the last one. */
  lemma HandedOut(entries: seq<Entry>, passwords: seq<string>, existing: set<string>, i: nat)
    requires i < |entries| && (i < |passwords| || (passwords != [] && entries[i].owner.Some?))
    ensures var e, event := entries[i], EventsOf(entries, passwords, existing, true)[i];
            if event.kind.Unchanged?
            then e.owner.Some? && AccountKey(e.owner.value) in existing && !e.isReset && !e.overwrites
                 && event.password == None
            else event.password == Some(passwords[if i < |passwords| then i else |passwords| - 1])
  {
    hide AccountKey;
  }

  /** When it cannot be told whose passwords they are, no account's row shows one. */
  lemma UnmatchedShowNone(entries: seq<Entry>, passwords: seq<string>, existing: set<string>, i: nat)
    requires i < |entries| && entries[i].owner.Some?
    ensures var event := EventsOf(entries, passwords, existing, false)[i];
            event.password == None && (event.unmatched <==> !event.kind.Unchanged?)
  {
    hide AccountKey;
  }

  lemma {:induction false} DecimalTells(a: nat, b: nat)
    requires Decimal(a) == Decimal(b)
    ensures a == b
    decreases a
  {
    var x, y := Decimal(a), Decimal(b);
    DecimalDigits(a);
    DecimalDigits(b);
    assert x[|x| - 1] == y[|y| - 1];
    if a >= 10 && b >= 10 {
      assert Decimal(a / 10) == x[..|x| - 1] && Decimal(b / 10) == y[..|y| - 1];
      DecimalTells(a / 10, b / 10);
    }
  }

  lemma DecimalDigits(n: nat)
    ensures |Decimal(n)| > 0 && Decimal(n)[|Decimal(n)| - 1] == ('0' as int + n % 10) as char
    ensures n < 10 <==> |Decimal(n)| == 1
  {
    if n >= 10 { DecimalDigits(n / 10); }
  }

  /** Accounts that could not be told are told apart by their statements. */
  lemma UnrecognizedTell(j: nat, k: nat)
    requires Unrecognized(j) == Unrecognized(k)
    ensures j == k
  {
    var p := "(unrecognized account, statement ";
    var x, y := Unrecognized(j), Unrecognized(k);
    assert Decimal(j + 1) == x[|p|..|x| - 1] && Decimal(k + 1) == y[|p|..|y| - 1];
    DecimalTells(j + 1, k + 1);
  }

  lemma {:induction false} LastToldSplit(first: seq<Event>, second: seq<Event>, row: string)
    ensures LastTold(first + second, row) == if LastTold(second, row).Some? then LastTold(second, row)
            else LastTold(first, row)
    decreases |second|
  {
    if second == [] {
      assert first + second == first;
    } else {
      var n := |second| - 1;
      LastToldSplit(first, second[..n], row);
      assert (first + second)[..|first + second| - 1] == first + second[..n];
    }
  }

  lemma LastToldPush(events: seq<Event>, e: Event, row: string)
    ensures LastTold(events + [e], row) == if e.row == row && Tells(e) then Some(e) else LastTold(events, row)
  {
    assert (events + [e])[..|events|] == events;
  }
}
