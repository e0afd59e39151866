/** The Lock Guard: a migration runs one statement at a time, a statement that
    waits for a lock too long is tried again, and nothing that succeeded is ever
    sent twice.  The server is any function of what it was asked before. */
module LockGuard {
  import opened Text
  import opened SqlStatements
  import opened SqlSplitter
  import SqlSpellings

  datatype Request =
    | SetLockWaitTimeout(seconds: int)
    | SetInnodbLockWaitTimeout(seconds: int)
    | ReadStatementTime
    | SetStatementTime(value: int)
    | Use(database: string)
    | Run(sql: string)

  /** An answer, error 1205 (lock wait timeout), or any other error. */
  datatype Reply = Answer(value: int) | LockWait | Broken

  datatype Event = Event(request: Request, reply: Reply)

  datatype Config = Config(enabled: bool, lockWaitTimeoutSec: int, innodbLockWaitTimeoutSec: int, maxRetries: int)

  /** How a run ended: normally, with the error of statement k, or with an error
      before any statement was sent. */
  datatype Outcome = Completed | ThrewAt(k: nat) | Refused

  class Connection {
    const server: (seq<Event>, Request) -> Reply
    var log: seq<Event>

    constructor (server: (seq<Event>, Request) -> Reply)
      ensures this.server == server && log == []
    {
      this.server := server;
      log := [];
    }

    method Query(q: Request) returns (r: Reply)
      modifies this
      ensures log == old(log) + [Event(q, r)] && r == server(old(log), q)
    {
      r := server(log, q);
      log := log + [Event(q, r)];
    }
  }

  /** At most this many times one statement is sent. */
  function Limit(cfg: Config): nat {
    if cfg.maxRetries > 1 then cfg.maxRetries else 1
  }

  /** n attempts of one statement, all but the last a lock-wait timeout. */
  function Attempts(s: string, n: nat, last: Reply): seq<Event>
    requires n > 0
  {
    seq(n - 1, _ => Event(Run(s), LockWait)) + [Event(Run(s), last)]
  }

  /** Statement after statement, each sent as often as `tries` says and answered
      at its last attempt. */
  function Answered(stmts: seq<string>, tries: seq<nat>, answers: seq<int>): seq<Event>
    requires |stmts| == |tries| == |answers| && forall k :: 0 <= k < |tries| ==> tries[k] > 0
  {
    if stmts == [] then []
    else
      var n := |stmts| - 1;
      Answered(stmts[..n], tries[..n], answers[..n]) + Attempts(stmts[n], tries[n], Answer(answers[n]))
  }

  /** What the sent statements were answered with. */
  ghost predicate Trace(es: seq<Event>, stmts: seq<string>, o: Outcome, limit: nat, tries: seq<nat>, answers: seq<int>)
    requires limit > 0
  {
    && (forall k :: 0 <= k < |tries| ==> 0 < tries[k] <= limit)
    && match o
       case Refused => false
       case Completed => |tries| == |answers| == |stmts| && es == Answered(stmts, tries, answers)
       case ThrewAt(k) =>
         && k < |stmts| && |answers| == k && |tries| == k + 1
         && exists e: Reply :: !e.Answer? && (e.LockWait? ==> tries[k] == limit)
              && es == Answered(stmts[..k], tries[..k], answers) + Attempts(stmts[k], tries[k], e)
  }

  /** One statement, tried until it is answered, fails otherwise or has waited
      for a lock `limit` times. */
  method RunStatement(c: Connection, s: string, maxRetries: int) returns (r: Reply, ghost n: nat)
    modifies c
    ensures 0 < n && (n > 1 ==> n <= maxRetries)
    ensures c.log == old(c.log) + Attempts(s, n, r)
    ensures r.LockWait? ==> n >= maxRetries
  {
    var attempt := 0;
    ghost var log := c.log;
    while true
      invariant attempt >= 0 && (attempt > 0 ==> attempt < maxRetries)
      invariant c.log == log + seq(attempt, _ => Event(Run(s), LockWait))
      decreases maxRetries - attempt
    {
      attempt := attempt + 1;
      r := c.Query(Run(s));
      n := attempt;
      assert c.log == log + Attempts(s, n, r);
      if r.LockWait? && attempt < maxRetries {
        assert Attempts(s, n, r) == seq(attempt, _ => Event(Run(s), LockWait));
        continue;
      }
      return;
    }
  }

  /** All statements in order, up to the first that throws. */
  method RunStatements(c: Connection, stmts: seq<string>, cfg: Config)
    returns (o: Outcome, ghost tries: seq<nat>, ghost answers: seq<int>)
    modifies c
    ensures |c.log| >= |old(c.log)| && c.log[..|old(c.log)|] == old(c.log)
    ensures Trace(c.log[|old(c.log)|..], stmts, o, Limit(cfg), tries, answers)
  {
    ghost var log := c.log;
    tries, answers := [], [];
    for index := 0 to |stmts|
      invariant |tries| == |answers| == index
      invariant forall k :: 0 <= k < |tries| ==> 0 < tries[k] <= Limit(cfg)
      invariant c.log == log + Answered(stmts[..index], tries, answers)
    {
      ghost var before := Answered(stmts[..index], tries, answers);
      var r, n := RunStatement(c, stmts[index], cfg.maxRetries);
      assert c.log == log + (before + Attempts(stmts[index], n, r));
      if !r.Answer? {
        tries := tries + [n];
        assert tries[..index] + [n] == tries;
        assert c.log[|log|..] == before + Attempts(stmts[index], tries[index], r);
        return ThrewAt(index), tries, answers;
      }
      AnsweredMore(stmts, tries, answers, index, n, r.value);
      tries, answers := tries + [n], answers + [r.value];
    }
    assert stmts[..|stmts|] == stmts;
    assert c.log[|log|..] == Answered(stmts, tries, answers);
    return Completed, tries, answers;
  }

  lemma AnsweredMore(stmts: seq<string>, tries: seq<nat>, answers: seq<int>, i: nat, n: nat, a: int)
    requires i < |stmts| && |tries| == |answers| == i && n > 0
    requires forall k :: 0 <= k < |tries| ==> tries[k] > 0
    ensures Answered(stmts[..i + 1], tries + [n], answers + [a])
            == Answered(stmts[..i], tries, answers) + Attempts(stmts[i], n, Answer(a))
  {
    assert stmts[..i + 1][..i] == stmts[..i];
    assert (tries + [n])[..i] == tries && (answers + [a])[..i] == answers;
  }

  // ---- what a trace says ----

  /** The statements that the server answered, in order. */
  function Succeeded(es: seq<Event>): seq<string> {
    if es == [] then []
    else Succeeded(es[..|es| - 1])
         + (if es[|es| - 1].request.Run? && es[|es| - 1].reply.Answer? then [es[|es| - 1].request.sql] else [])
  }

  lemma {:induction false} SucceededConcat(a: seq<Event>, b: seq<Event>)
    ensures Succeeded(a + b) == Succeeded(a) + Succeeded(b)
    decreases |b|
  {
    if b == [] {
      assert a + b == a;
    } else {
      assert (a + b)[..|a + b| - 1] == a + b[..|b| - 1];
      SucceededConcat(a, b[..|b| - 1]);
    }
  }

  lemma {:induction false} WaitsSucceedNever(s: string, n: nat)
    ensures Succeeded(seq(n, _ => Event(Run(s), LockWait))) == []
    decreases n
  {
    if n > 0 {
      var es := seq(n, _ => Event(Run(s), LockWait));
      assert es[..n - 1] == seq(n - 1, _ => Event(Run(s), LockWait));
      WaitsSucceedNever(s, n - 1);
    }
  }

  lemma AttemptsSucceed(s: string, n: nat, last: Reply)
    requires n > 0
    ensures Succeeded(Attempts(s, n, last)) == if last.Answer? then [s] else []
  {
    var waits := seq(n - 1, _ => Event(Run(s), LockWait));
    assert Attempts(s, n, last)[..n - 1] == waits;
    WaitsSucceedNever(s, n - 1);
  }

  lemma {:induction false} AnsweredSucceed(stmts: seq<string>, tries: seq<nat>, answers: seq<int>)
    requires |stmts| == |tries| == |answers| && forall k :: 0 <= k < |tries| ==> tries[k] > 0
    ensures Succeeded(Answered(stmts, tries, answers)) == stmts
    decreases |stmts|
  {
    if stmts != [] {
      var n := |stmts| - 1;
      AnsweredSucceed(stmts[..n], tries[..n], answers[..n]);
      AttemptsSucceed(stmts[n], tries[n], Answer(answers[n]));
      SucceededConcat(Answered(stmts[..n], tries[..n], answers[..n]), Attempts(stmts[n], tries[n], Answer(answers[n])));
      assert stmts[..n] + [stmts[n]] == stmts;
    }
  }

  /** A normal return means each statement succeeded exactly once, in order; an
      error at statement k means exactly the ones before it did. */
  lemma ExactlyOnce(es: seq<Event>, stmts: seq<string>, o: Outcome, limit: nat, tries: seq<nat>, answers: seq<int>)
    requires limit > 0 && Trace(es, stmts, o, limit, tries, answers)
    ensures o.Completed? ==> Succeeded(es) == stmts
    ensures o.ThrewAt? ==> o.k < |stmts| && Succeeded(es) == stmts[..o.k]
  {
    match o
    case Completed => AnsweredSucceed(stmts, tries, answers);
    case ThrewAt(k) =>
      var e: Reply :| !e.Answer? && es == Answered(stmts[..k], tries[..k], answers) + Attempts(stmts[k], tries[k], e);
      AnsweredSucceed(stmts[..k], tries[..k], answers);
      AttemptsSucceed(stmts[k], tries[k], e);
      SucceededConcat(Answered(stmts[..k], tries[..k], answers), Attempts(stmts[k], tries[k], e));
  }

  // ---- the whole guard ----

  /** "USE db;" and the script, sent as one text when the guard is off. */
  function WithUse(sql: string, database: Option<string>): string {
    match database case None => sql case Some(db) => "USE `" + db + "`;\n" + sql
  }

  /** What is sent before the first statement. */
  function Setup(database: Option<string>, cfg: Config): seq<Request> {
    [SetLockWaitTimeout(cfg.lockWaitTimeoutSec), SetInnodbLockWaitTimeout(cfg.innodbLockWaitTimeoutSec)]
    + (match database case None => [] case Some(db) => [Use(db)])
  }

  /** The set-up requests went out in order, up to one that failed. */
  ghost predicate SetUp(es: seq<Event>, setup: seq<Request>) {
    && |es| <= |setup| && (forall k :: 0 <= k < |es| ==> es[k].request == setup[k])
    && (forall k :: 0 <= k < |es| - 1 ==> es[k].reply.Answer?)
  }

  /** The events of a guarded run: `setup` before the statements, then `es`. */
  ghost predicate Guarded(sql: string, database: Option<string>, cfg: Config, o: Outcome,
                          setup: seq<Event>, es: seq<Event>, tries: seq<nat>, answers: seq<int>)
  {
    if !cfg.enabled then
      && setup == [] && |es| == 1 && es[0].request == Run(WithUse(sql, database))
      && o == (if es[0].reply.Answer? then Completed else ThrewAt(0))
    else if cfg.lockWaitTimeoutSec <= 0 || cfg.innodbLockWaitTimeoutSec <= 0 then
      o.Refused? && setup == [] && es == []
    else
      && SetUp(setup, Setup(database, cfg))
      && if o.Refused? then es == [] && setup != [] && !setup[|setup| - 1].reply.Answer?
         else
           && |setup| == |Setup(database, cfg)| && setup[|setup| - 1].reply.Answer?
           && match Split(sql)
              case None =>
                |es| == 1 && es[0].request == Run(sql) && o == (if es[0].reply.Answer? then Completed else ThrewAt(0))
              case Some(stmts) => Trace(es, stmts, o, Limit(cfg), tries, answers)
  }

  method ExecuteGuarded(c: Connection, sql: string, database: Option<string>, cfg: Config)
    returns (o: Outcome, ghost setup: seq<Event>, ghost es: seq<Event>, ghost tries: seq<nat>, ghost answers: seq<int>)
    modifies c
    ensures c.log == old(c.log) + setup + es
    ensures Guarded(sql, database, cfg, o, setup, es, tries, answers)
  {
    setup, es, tries, answers := [], [], [], [];
    if !cfg.enabled {
      var r := c.Query(Run(WithUse(sql, database)));
      es := [Event(Run(WithUse(sql, database)), r)];
      return if r.Answer? then Completed else ThrewAt(0), setup, es, tries, answers;
    }
    if cfg.lockWaitTimeoutSec <= 0 || cfg.innodbLockWaitTimeoutSec <= 0 {
      return Refused, setup, es, tries, answers;
    }
    var requests := Setup(database, cfg);
    for k := 0 to |requests|
      invariant |setup| == k && c.log == old(c.log) + setup
      invariant forall j :: 0 <= j < k ==> setup[j].request == requests[j] && setup[j].reply.Answer?
    {
      var r := c.Query(requests[k]);
      setup := setup + [Event(requests[k], r)];
      if !r.Answer? { return Refused, setup, es, tries, answers; }
    }
    var stmts := SplitSqlStatements(sql);
    if stmts.None? {
      var r := c.Query(Run(sql));
      es := [Event(Run(sql), r)];
      return if r.Answer? then Completed else ThrewAt(0), setup, es, tries, answers;
    }
    label statements:
    o, tries, answers := RunStatements(c, stmts.value, cfg);
    es := c.log[|old@statements(c.log)|..];
  }

  /** Whenever the guard sends a statement, both lock timeouts have been set to the
      configured seconds before it, and the database, if one is named, is in use. */
  lemma GuardedSetsUp(sql: string, database: Option<string>, cfg: Config, o: Outcome, setup: seq<Event>,
                      es: seq<Event>, tries: seq<nat>, answers: seq<int>)
    requires Guarded(sql, database, cfg, o, setup, es, tries, answers) && cfg.enabled
    ensures forall k :: 0 <= k < |setup| ==> !setup[k].request.Run?
    ensures es != [] || !o.Refused? ==>
              && |setup| == (if database.Some? then 3 else 2)
              && setup[0].request == SetLockWaitTimeout(cfg.lockWaitTimeoutSec) && cfg.lockWaitTimeoutSec > 0
              && setup[1].request == SetInnodbLockWaitTimeout(cfg.innodbLockWaitTimeoutSec)
              && cfg.innodbLockWaitTimeoutSec > 0
              && (database.Some? ==> setup[2].request == Use(database.value))
              && forall k :: 0 <= k < |setup| ==> setup[k].reply.Answer?
  {
    hide Trace, Split;
  }

  /** Without the guard the server is sent the script as it is, or, as one text,
      USE and then the statements that the guard would have sent. */
  lemma OneText(sql: string, database: Option<string>)
    requires database.Some? ==> '`' !in database.value
    ensures Split(WithUse(sql, database))
            == if database.None? || Split(sql).None? then Split(sql)
               else Some(["USE `" + database.value + "`"] + Split(sql).value)
    ensures database.None? ==> WithUse(sql, database) == sql
    ensures |WithUse(sql, database)| >= |sql|
            && WithUse(sql, database)[|WithUse(sql, database)| - |sql|..] == sql
  {
    hide Split;
    if database.Some? {
      SqlSpellings.UseSplitsOff(database.value, sql);
      assert "USE `" + database.value + "`;\n" + sql == WithUse(sql, database);
    }
  }

  /** With a statement time limit: the session's own limit is read first, and is
      put back on every way out once the new one was set. */
  method ExecuteWithLockGuard(c: Connection, sql: string, database: Option<string>, timeoutSec: nat, cfg: Config)
    returns (o: Outcome, ghost first: seq<Event>, ghost setup: seq<Event>, ghost es: seq<Event>, ghost last: seq<Event>,
             ghost tries: seq<nat>, ghost answers: seq<int>)
    modifies c
    ensures c.log == old(c.log) + first + setup + es + last
    ensures timeoutSec == 0 ==> first == [] && last == []
    ensures timeoutSec > 0 ==>
              && 1 <= |first| <= 2 && first[0].request == ReadStatementTime
              && (|first| == 2 <==> first[0].reply.Answer?)
              && (|first| == 2 ==> first[1].request == SetStatementTime(timeoutSec))
    ensures timeoutSec > 0 && |first| == 2 && first[1].reply.Answer? ==>
              |last| == 1 && last[0].request == SetStatementTime(first[0].reply.value)
    ensures timeoutSec > 0 && !(|first| == 2 && first[1].reply.Answer?) ==>
              o.Refused? && setup == [] && es == [] && last == []
    ensures timeoutSec == 0 || last != [] ==> Guarded(sql, database, cfg, o, setup, es, tries, answers)
  {
    hide Guarded;
    first, setup, es, last, tries, answers := [], [], [], [], [], [];
    if timeoutSec == 0 {
      o, setup, es, tries, answers := ExecuteGuarded(c, sql, database, cfg);
      return;
    }
    var previous := c.Query(ReadStatementTime);
    first := [Event(ReadStatementTime, previous)];
    if !previous.Answer? { o := Refused; return; }
    var limited := c.Query(SetStatementTime(timeoutSec));
    first := first + [Event(SetStatementTime(timeoutSec), limited)];
    if !limited.Answer? { o := Refused; return; }
    o, setup, es, tries, answers := ExecuteGuarded(c, sql, database, cfg);
    var restored := c.Query(SetStatementTime(previous.value));
    last := [Event(SetStatementTime(previous.value), restored)];
  }
}
