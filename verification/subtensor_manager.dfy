/** The per-request connection manager: an optional stored connection,
    created on first use, replaced after a failure inside a scope, and closed
    when the request ends.

    The remote calls are opaque. Every create and close call is recorded in an
    event log, and its outcome is read from an environment indexed by the
    position the call takes in that log. A connection is named by the log
    position of the create call that made it, so names are never reused. */
module SubtensorManager {
  import opened Outcomes

  type ConnId = nat

  /** One remote call made by the manager. */
  datatype Event =
    | Create(result: Completion)               // construct a client and initialize it
    | Close(conn: ConnId, result: Completion)  // close a connection; a failure is swallowed

  /** The outcome each remote call would have if made at a given log position. */
  datatype Env = Env(create: nat -> Completion, close: nat -> Completion)

  datatype Manager = Manager(network: string, stored: Option<ConnId>, log: seq<Event>)

  /** The network used when `SUBTENSOR_NETWORK` is not set. */
  const DefaultNetwork: string := "archive"

  /** A connection handed to the caller's scope. `retried` records that it came
      from the yield inside the exception handler, which no handler guards. */
  datatype Entered = Entered(conn: ConnId, retried: bool)

  /** `c` names a create call that succeeded. */
  predicate Created(log: seq<Event>, c: ConnId) {
    c < |log| && log[c] == Create(Normal)
  }

  /** How many times `c` has been closed. */
  function CloseCount(log: seq<Event>, c: ConnId): nat {
    if |log| == 0 then 0
    else CloseCount(log[..|log| - 1], c) + (if log[|log| - 1] == Close(c, log[|log| - 1].result) then 1 else 0)
  }

  /** How many create calls have been made, successful or not. */
  function CreateCount(log: seq<Event>): nat {
    if |log| == 0 then 0
    else CreateCount(log[..|log| - 1]) + (if log[|log| - 1].Create? then 1 else 0)
  }

  /** The manager holds only connections it made, and every connection it made
      is either still held or has been closed. */
  ghost predicate Tidy(m: Manager) {
    && (m.stored.Some? ==> Created(m.log, m.stored.value))
    && forall c: ConnId :: Created(m.log, c) ==> m.stored == Some(c) || CloseCount(m.log, c) > 0
  }

  /** `SubtensorManager()`: no connection yet. */
  function NewManager(networkVariable: Option<string>): (m: Manager)
    ensures m.stored.None? && m.log == [] && Tidy(m)
    ensures m.network == if networkVariable.Some? then networkVariable.value else DefaultNetwork
  {
    Manager(if networkVariable.Some? then networkVariable.value else DefaultNetwork, None, [])
  }

  /** `_create_subtensor`: one create call. The stored reference is left to
      the caller; on success the result names the new connection. */
  function CreateConnection(m: Manager, env: Env): (r: (Manager, Result<ConnId>))
    ensures r.0.stored == m.stored && r.0.network == m.network
    ensures r.0.log == m.log + [Create(env.create(|m.log|))]
    ensures r.1.Ok? <==> env.create(|m.log|).Normal?
    ensures r.1.Ok? ==> r.1.value == |m.log| && Created(r.0.log, r.1.value)
    ensures r.1.Err? ==> r.1.error == env.create(|m.log|).kind
  {
    var outcome := env.create(|m.log|);
    (m.(log := m.log + [Create(outcome)]),
     if outcome.Normal? then Ok(|m.log|) else Err(outcome.kind))
  }

  /** `await conn.close()` inside `try: ... except: pass`: the call is made and
      its outcome is recorded, but nothing else depends on it. */
  function CloseConnection(m: Manager, env: Env, c: ConnId): (m': Manager)
    ensures m'.stored == m.stored && m'.network == m.network
    ensures |m'.log| == |m.log| + 1 && m'.log[..|m.log|] == m.log
    ensures m'.log[|m.log|].Close? && m'.log[|m.log|].conn == c
  {
    m.(log := m.log + [Close(c, env.close(|m.log|))])
  }

  /** The body shared by both `except` clauses of `get_subtensor`: close the
      stored connection if there is one (without clearing the reference), then
      create a new one and store it only if that succeeds. */
  function Recover(m: Manager, env: Env): (r: (Manager, Result<ConnId>))
    ensures r.0.network == m.network
    ensures var t := if m.stored.Some? then |m.log| + 1 else |m.log|;
            r.0.log == m.log + (if m.stored.Some? then [Close(m.stored.value, env.close(|m.log|))] else [])
                             + [Create(env.create(t))]
    ensures r.1.Ok? <==> r.0.log[|r.0.log| - 1] == Create(Normal)
    ensures r.1.Ok? ==> r.0.stored == Some(r.1.value) && r.1.value == |r.0.log| - 1 && Created(r.0.log, r.1.value)
    ensures r.1.Err? ==> r.0.stored == m.stored && r.1.error == r.0.log[|r.0.log| - 1].result.kind
  {
    var closed := if m.stored.Some? then CloseConnection(m, env, m.stored.value) else m;
    var created := CreateConnection(closed, env);
    match created.1
    case Ok(c) => (created.0.(stored := Some(c)), Ok(c))
    case Err(k) => (created.0, Err(k))
  }

  /** Entering `async with manager.get_subtensor()`: reuse the stored
      connection, or create one; if that creation raises an `Exception`,
      run the handler, which creates once more. */
  function Enter(m: Manager, env: Env): (r: (Manager, Result<Entered>))
    ensures r.0.network == m.network
    ensures m.stored.Some? ==> r == (m, Ok(Entered(m.stored.value, false)))
    ensures r.1.Ok? ==> r.0.stored == Some(r.1.value.conn)
    ensures r.1.Ok? && m.stored.None? ==> Created(r.0.log, r.1.value.conn)
    ensures r.1.Err? ==> r.0.stored == m.stored
    ensures |m.log| <= |r.0.log| <= |m.log| + (if r.1.Ok? && !r.1.value.retried then 1 else 2)
    ensures r.0.log[..|m.log|] == m.log
    ensures forall t :: |m.log| <= t < |r.0.log| ==> r.0.log[t].Create?
    ensures forall t :: |m.log| <= t < |r.0.log| && r.0.log[t] == Create(Normal) ==> r.0.stored == Some(t)
  {
    if m.stored.Some? then (m, Ok(Entered(m.stored.value, false)))
    else
      var first := CreateConnection(m, env);
      match first.1
      case Ok(c) => (first.0.(stored := Some(c)), Ok(Entered(c, false)))
      case Err(k) =>
        if !k.IsException() then (first.0, Err(k))
        else
          var second := Recover(first.0, env);
          match second.1
          case Ok(c) => (second.0, Ok(Entered(c, true)))
          case Err(k2) => (second.0, Err(k2))
  }

  /** The first `except` clause, reached when the body raised an
      `Exception`: recover, then contextlib raises `RuntimeError` if the
      generator yields again, or the creation error propagates. */
  function HandleBodyError(m: Manager, env: Env): (r: (Manager, Completion))
    ensures r.0.network == m.network && r.1.Raised?
    ensures |r.0.log| == |m.log| + (if m.stored.Some? then 2 else 1)
    ensures r.0.log[..|m.log|] == m.log
    ensures forall t :: |m.log| <= t < |r.0.log| && r.0.log[t].Close? ==> t == |m.log|
    ensures CreateCount(r.0.log) == CreateCount(m.log) + 1
    ensures r.0.stored == if r.0.log[|r.0.log| - 1] == Create(Normal) then Some(|r.0.log| - 1) else m.stored
  {
    var recovered := Recover(m, env);
    (recovered.0, Raised(if recovered.1.Ok? then GeneratorDidNotStop else recovered.1.error))
  }

  /** Leaving the scope. A normal exit finishes the generator and changes
      nothing. An `Exception` thrown in at the first yield runs the handler,
      which closes the old connection and creates a new one; if that
      succeeds the generator yields again and contextlib raises
      `RuntimeError`, otherwise the creation error propagates. An exception
      thrown in at the handler's own yield, or one that is not an
      `Exception`, propagates untouched. */
  function Exit(m: Manager, env: Env, entered: Entered, body: Completion): (r: (Manager, Completion))
    ensures r.0.network == m.network
    ensures body.Normal? <==> r.1.Normal?
    ensures |m.log| <= |r.0.log| <= |m.log| + (if entered.retried then 0 else 2)
    ensures r.0.log[..|m.log|] == m.log
    ensures forall t :: |m.log| <= t < |r.0.log| && r.0.log[t].Close? ==> t == |m.log|
    ensures CreateCount(r.0.log) <= CreateCount(m.log) + (if entered.retried then 0 else 1)
    ensures body.Normal? || entered.retried || !body.kind.IsException() ==> r == (m, body)
    ensures !entered.retried && body.Raised? && body.kind.IsException() ==>
              && |r.0.log| > |m.log|
              && r.0.stored == if r.0.log[|r.0.log| - 1] == Create(Normal) then Some(|r.0.log| - 1) else m.stored
  {
    if body.Normal? || entered.retried || !body.kind.IsException() then (m, body)
    else HandleBodyError(m, env)
  }

  /** One `async with manager.get_subtensor() as subtensor:` block whose body
      ends with `body`. */
  function Scope(m: Manager, env: Env, body: Completion): (r: (Manager, Completion))
    ensures r.0.network == m.network
    ensures Enter(m, env).1.Err? ==> r == (Enter(m, env).0, Raised(Enter(m, env).1.error))
    ensures Enter(m, env).1.Ok? && body.Normal? ==> r == (Enter(m, env).0, Normal)
    ensures body.Raised? ==> r.1.Raised?
  {
    var entered := Enter(m, env);
    match entered.1
    case Err(k) => (entered.0, Raised(k))
    case Ok(e) => Exit(entered.0, env, e, body)
  }

  /** `SubtensorManager.close`: close the stored connection, swallowing any
      failure, and forget it. */
  function CloseManager(m: Manager, env: Env): (m': Manager)
    ensures m'.stored.None? && m'.network == m.network
    ensures m.stored.None? ==> m' == m
    ensures m.stored.Some? ==> m'.log == m.log + [Close(m.stored.value, env.close(|m.log|))]
  {
    match m.stored
    case None => m
    case Some(c) => CloseConnection(m, env, c).(stored := None)
  }

  /** Acquiring from a fresh manager succeeds: the first create call
      succeeds, or it raises an `Exception` and the one retry succeeds. */
  predicate FreshAcquireSucceeds(env: Env) {
    env.create(0).Normal? || (env.create(0).kind.IsException() && env.create(1).Normal?)
  }

  /** `get_subtensor_manager`: a fresh manager for one request, one scope for
      the handler, and `close()` in the `finally` clause whatever the handler
      did. */
  function Request(networkVariable: Option<string>, env: Env, body: Completion): (r: (Manager, Completion))
    ensures r.0.stored.None?
    ensures r.1.Normal? <==> body.Normal? && FreshAcquireSucceeds(env)
  {
    var scoped := Scope(NewManager(networkVariable), env, body);
    (CloseManager(scoped.0, env), scoped.1)
  }

  // ---------------------------------------------------------------------
  // Counting calls in the log

  /** Appending one call adds it to the matching count. */
  lemma CountsAppend(log: seq<Event>, e: Event, c: ConnId)
    ensures CloseCount(log + [e], c) == CloseCount(log, c) + (if e == Close(c, e.result) then 1 else 0)
    ensures CreateCount(log + [e]) == CreateCount(log) + (if e.Create? then 1 else 0)
  {
  }

  /** A stretch of the log made only of create calls adds its length to the
      create count. */
  lemma {:induction false} CreateRun(log: seq<Event>, n: nat)
    requires n <= |log|
    requires forall t :: n <= t < |log| ==> log[t].Create?
    ensures CreateCount(log) == CreateCount(log[..n]) + |log| - n
    decreases |log|
  {
    if |log| > n {
      var prev := log[..|log| - 1];
      assert prev[..n] == log[..n];
      CreateRun(prev, n);
    } else {
      assert log == log[..n];
    }
  }

  // ---------------------------------------------------------------------
  // Acquiring a connection

  /** With a connection stored, acquiring hands it out again and makes no
      remote call. */
  lemma AcquireReusesStored(m: Manager, env: Env)
    requires m.stored.Some?
    ensures Enter(m, env).0 == m
    ensures Enter(m, env).1 == Ok(Entered(m.stored.value, false))
  {
  }

  /** With nothing stored and a create call that succeeds, acquiring makes
      exactly that one call, stores the new connection and hands it out. */
  lemma AcquireCreatesWhenEmpty(m: Manager, env: Env)
    requires m.stored.None? && env.create(|m.log|).Normal?
    ensures var r := Enter(m, env);
            && r.1 == Ok(Entered(|m.log|, false))
            && r.0.stored == Some(|m.log|)
            && r.0.log == m.log + [Create(Normal)]
            && CreateCount(r.0.log) == CreateCount(m.log) + 1
  {
  }

  /** If the first creation raises an `Exception`, nothing is stored, so no
      close is attempted; creation is tried exactly once more, and a second
      failure reaches the caller. */
  lemma FirstCreationRetriedOnce(m: Manager, env: Env)
    requires m.stored.None?
    requires env.create(|m.log|).Raised? && env.create(|m.log|).kind.IsException()
    ensures var r := Enter(m, env);
            && r.0.log == m.log + [Create(env.create(|m.log|)), Create(env.create(|m.log| + 1))]
            && (r.1.Ok? <==> env.create(|m.log| + 1).Normal?)
            && (r.1.Ok? ==> r.1.value == Entered(|m.log| + 1, true) && r.0.stored == Some(|m.log| + 1))
            && (r.1.Err? ==> r.1.error == env.create(|m.log| + 1).kind && r.0.stored.None?)
  {
  }

  /** A creation failure that is not an `Exception` escapes the handler: no
      retry. */
  lemma CancelledCreationNotRetried(m: Manager, env: Env)
    requires m.stored.None? && env.create(|m.log|) == Raised(Cancelled)
    ensures Enter(m, env) == (m.(log := m.log + [Create(Raised(Cancelled))]), Err(Cancelled))
  {
  }

  /** Acquiring keeps the manager tidy. */
  lemma EnterKeepsTidy(m: Manager, env: Env)
    requires Tidy(m)
    ensures Tidy(Enter(m, env).0)
  {
  }

  // ---------------------------------------------------------------------
  // Leaving a scope

  /** An `Exception` in the caller's scope, on a connection handed out from
      the store, closes that connection once and creates exactly one
      replacement. The caller sees an error either way: contextlib's
      `RuntimeError` when the replacement is stored, or the creation error
      otherwise, in which case the closed connection stays stored. */
  lemma ScopeFailureReplacesConnection(m: Manager, env: Env, k: ErrorKind)
    requires m.stored.Some? && k.IsException()
    ensures var c := m.stored.value;
            var r := Scope(m, env, Raised(k));
            && r.0.log == m.log + [Close(c, env.close(|m.log|)), Create(env.create(|m.log| + 1))]
            && CloseCount(r.0.log, c) == CloseCount(m.log, c) + 1
            && CreateCount(r.0.log) == CreateCount(m.log) + 1
            && r.1.Raised?
            && (env.create(|m.log| + 1).Normal? ==>
                  r.0.stored == Some(|m.log| + 1) && r.1 == Raised(GeneratorDidNotStop))
            && (env.create(|m.log| + 1).Raised? ==>
                  r.0.stored == Some(c) && r.1 == Raised(env.create(|m.log| + 1).kind))
  {
  }

  /** The two `except` clauses run the same code, so a `ConnectionError` or
      `AttributeError` has exactly the effect of any other `Exception`; an
      error that is not an `Exception` leaves the manager alone. */
  lemma ExceptClausesAgree(m: Manager, env: Env, entered: Entered)
    ensures Exit(m, env, entered, Raised(ConnectionError)).0 == Exit(m, env, entered, Raised(OtherException)).0
    ensures Exit(m, env, entered, Raised(AttributeError)).0 == Exit(m, env, entered, Raised(OtherException)).0
    ensures Exit(m, env, entered, Raised(Cancelled)) == (m, Raised(Cancelled))
  {
  }

  /** Leaving a scope keeps the manager tidy. */
  lemma ExitKeepsTidy(m: Manager, env: Env, entered: Entered, body: Completion)
    requires Tidy(m)
    ensures Tidy(Exit(m, env, entered, body).0)
  {
  }

  // ---------------------------------------------------------------------
  // Closing the manager

  /** `close()` on a manager holding a connection closes it exactly once and
      forgets it; a second `close()` does nothing. */
  lemma CloseOnceThenNoOp(m: Manager, env: Env)
    ensures CloseManager(CloseManager(m, env), env) == CloseManager(m, env)
    ensures m.stored.Some? ==>
              CloseCount(CloseManager(m, env).log, m.stored.value) == CloseCount(m.log, m.stored.value) + 1
    ensures m.stored.None? ==> CloseManager(m, env) == m
  {
  }

  /** Closing the manager leaves every connection it made closed. */
  lemma CloseKeepsTidy(m: Manager, env: Env)
    requires Tidy(m)
    ensures Tidy(CloseManager(m, env))
    ensures forall c: ConnId :: Created(CloseManager(m, env).log, c) ==> CloseCount(CloseManager(m, env).log, c) > 0
  {
  }

  // ---------------------------------------------------------------------
  // Whole requests

  /** A request's manager ends with nothing stored, every connection it made
      has been closed at least once, and it made at most two create calls:
      one per acquisition plus exactly one re-creation. */
  lemma RequestClosesEveryConnection(networkVariable: Option<string>, env: Env, body: Completion)
    ensures var r := Request(networkVariable, env, body);
            && r.0.stored.None?
            && (forall c: ConnId :: Created(r.0.log, c) ==> CloseCount(r.0.log, c) > 0)
            && CreateCount(r.0.log) <= 2
  {
    var m0 := NewManager(networkVariable);
    var entered := Enter(m0, env);
    EnterKeepsTidy(m0, env);
    CreateRun(entered.0.log, 0);
    var scoped := Scope(m0, env, body);
    if entered.1.Ok? {
      ExitKeepsTidy(entered.0, env, entered.1.value, body);
    }
    CloseKeepsTidy(scoped.0, env);
    if scoped.0.stored.Some? {
      CountsAppend(scoped.0.log, Close(scoped.0.stored.value, env.close(|scoped.0.log|)), 0);
    }
  }

  /** When the re-creation after a failed scope fails too, the closed
      connection stays stored, and the `close()` at the end of the request
      closes it a second time. */
  lemma StaleConnectionClosedTwice(networkVariable: Option<string>, env: Env, k: ErrorKind)
    requires env.create(0).Normal? && env.create(2).Raised? && k.IsException()
    ensures var r := Request(networkVariable, env, Raised(k));
            && CloseCount(r.0.log, 0) == 2
            && r.1 == Raised(env.create(2).kind)
  {
    var m0 := NewManager(networkVariable);
    var m1 := m0.(stored := Some(0), log := [Create(Normal)]);
    AcquireCreatesWhenEmpty(m0, env);
    assert Enter(m0, env) == (m1, Ok(Entered(0, false)));
    var scoped := Scope(m0, env, Raised(k));
    assert scoped == Exit(m1, env, Entered(0, false), Raised(k));
    AcquireReusesStored(m1, env);
    assert scoped == Scope(m1, env, Raised(k));
    ScopeFailureReplacesConnection(m1, env, k);
    assert scoped.0.stored == Some(0) && |scoped.0.log| == 3;
    CountsAppend(scoped.0.log, Close(0, env.close(3)), 0);
  }

  // ---------------------------------------------------------------------
  // Close failures are swallowed

  /** The log with the outcomes of close calls forgotten. */
  function EraseCloseResults(log: seq<Event>): (erased: seq<Event>)
    ensures |erased| == |log|
    ensures forall t :: 0 <= t < |log| ==> erased[t].Create? == log[t].Create?
  {
    seq(|log|, t requires 0 <= t < |log| => if log[t].Close? then Close(log[t].conn, Normal) else log[t])
  }

  /** Two managers that differ at most in the recorded outcomes of close
      calls. */
  ghost predicate SameButCloses(m1: Manager, m2: Manager) {
    && m1.network == m2.network
    && m1.stored == m2.stored
    && EraseCloseResults(m1.log) == EraseCloseResults(m2.log)
  }

  /** Erasing close outcomes commutes with appending one call. */
  lemma EraseAppend(log1: seq<Event>, log2: seq<Event>, e1: Event, e2: Event)
    requires EraseCloseResults(log1) == EraseCloseResults(log2)
    requires EraseCloseResults([e1]) == EraseCloseResults([e2])
    ensures EraseCloseResults(log1 + [e1]) == EraseCloseResults(log2 + [e2])
  {
  }

  /** A create call does not depend on earlier close outcomes. */
  lemma CreateSwallows(m1: Manager, m2: Manager, env1: Env, env2: Env)
    requires SameButCloses(m1, m2) && forall t :: env1.create(t) == env2.create(t)
    ensures SameButCloses(CreateConnection(m1, env1).0, CreateConnection(m2, env2).0)
    ensures CreateConnection(m1, env1).1 == CreateConnection(m2, env2).1
  {
  }

  /** The `except` handler's stored state and result do not depend on close
      outcomes. */
  lemma RecoverSwallows(m1: Manager, m2: Manager, env1: Env, env2: Env)
    requires SameButCloses(m1, m2) && forall t :: env1.create(t) == env2.create(t)
    ensures SameButCloses(Recover(m1, env1).0, Recover(m2, env2).0)
    ensures Recover(m1, env1).1 == Recover(m2, env2).1
  {
  }

  /** Acquiring a connection does not depend on earlier close outcomes. */
  lemma EnterSwallows(m1: Manager, m2: Manager, env1: Env, env2: Env)
    requires SameButCloses(m1, m2) && forall t :: env1.create(t) == env2.create(t)
    ensures SameButCloses(Enter(m1, env1).0, Enter(m2, env2).0)
    ensures Enter(m1, env1).1 == Enter(m2, env2).1
  {
  }

  /** Leaving a scope does not depend on earlier close outcomes. */
  lemma ExitSwallows(m1: Manager, m2: Manager, env1: Env, env2: Env, entered: Entered, body: Completion)
    requires SameButCloses(m1, m2) && forall t :: env1.create(t) == env2.create(t)
    ensures SameButCloses(Exit(m1, env1, entered, body).0, Exit(m2, env2, entered, body).0)
    ensures Exit(m1, env1, entered, body).1 == Exit(m2, env2, entered, body).1
  {
    RecoverSwallows(m1, m2, env1, env2);
  }

  /** A whole scope's stored state, caller-visible outcome and calls do not
      depend on close outcomes. */
  lemma ScopeSwallows(m1: Manager, m2: Manager, env1: Env, env2: Env, body: Completion)
    requires SameButCloses(m1, m2) && forall t :: env1.create(t) == env2.create(t)
    ensures SameButCloses(Scope(m1, env1, body).0, Scope(m2, env2, body).0)
    ensures Scope(m1, env1, body).1 == Scope(m2, env2, body).1
  {
    EnterSwallows(m1, m2, env1, env2);
    var e1 := Enter(m1, env1);
    if e1.1.Ok? {
      ExitSwallows(e1.0, Enter(m2, env2).0, env1, env2, e1.1.value, body);
    }
  }

  /** Two environments that differ only in how close calls end give the same
      stored connection, the same caller-visible outcome, and the same calls in
      the log. */
  lemma CloseFailuresSwallowed(networkVariable: Option<string>, env1: Env, env2: Env, body: Completion)
    requires forall t :: env1.create(t) == env2.create(t)
    ensures var r1 := Request(networkVariable, env1, body);
            var r2 := Request(networkVariable, env2, body);
            && r1.1 == r2.1
            && r1.0.stored == r2.0.stored
            && EraseCloseResults(r1.0.log) == EraseCloseResults(r2.0.log)
  {
    var m0 := NewManager(networkVariable);
    ScopeSwallows(m0, m0, env1, env2, body);
    var s1 := Scope(m0, env1, body);
    var s2 := Scope(m0, env2, body);
    assert |s1.0.log| == |EraseCloseResults(s1.0.log)| == |s2.0.log|;
    if s1.0.stored.Some? {
      var c := s1.0.stored.value;
      EraseAppend(s1.0.log, s2.0.log, Close(c, env1.close(|s1.0.log|)), Close(c, env2.close(|s2.0.log|)));
    }
  }
}
